/**
 * Capacity simulator of an agency: the calendar is cut at every start and end of a trip, the load
 * of each piece is summed, and the busiest piece tells how many pilgrims can still be taken on.
 * The reference definition is pointwise: which trips run at an instant, and what they need.
 */
module Capacity {
  import opened Basics
  import opened Sorting

  datatype Trip = Trip(packageId: string, startDate: int, endDate: int, capacity: nat, seatsTaken: nat,
                       guidesNeeded: nat, guidesAssigned: nat)

  datatype Period = Period(from: int, to: int, packageIds: seq<string>, plannedPilgrims: nat, soldPilgrims: nat,
                           guidesNeeded: nat, guidesNeededForSold: nat)

  // ---------------------------------------------------------------- pointwise definition

  /** A trip runs from its start to midnight of its last day, end excluded. */
  function Fin(v: Trip): int {
    v.endDate + JOUR_MS
  }

  predicate RunsAt(v: Trip, t: int) {
    v.startDate <= t < Fin(v)
  }

  function RunningAt(voyages: seq<Trip>, t: int): seq<Trip> {
    if voyages == [] then []
    else RunningAt(voyages[..|voyages| - 1], t) +
         (if RunsAt(voyages[|voyages| - 1], t) then [voyages[|voyages| - 1]] else [])
  }

  function CeilDiv(n: nat, d: int): nat
    requires d >= 1
  {
    (n + d - 1) / d
  }

  function Ids(voyages: seq<Trip>): seq<string> {
    if voyages == [] then [] else Ids(voyages[..|voyages| - 1]) + [voyages[|voyages| - 1].packageId]
  }

  function Planned(voyages: seq<Trip>): nat {
    if voyages == [] then 0 else Planned(voyages[..|voyages| - 1]) + voyages[|voyages| - 1].capacity
  }

  function Sold(voyages: seq<Trip>): nat {
    if voyages == [] then 0 else Sold(voyages[..|voyages| - 1]) + voyages[|voyages| - 1].seatsTaken
  }

  function Guides(voyages: seq<Trip>): nat {
    if voyages == [] then 0 else Guides(voyages[..|voyages| - 1]) + voyages[|voyages| - 1].guidesNeeded
  }

  function GuidesForSold(voyages: seq<Trip>, ratio: int): nat
    requires ratio >= 1
  {
    if voyages == [] then 0
    else GuidesForSold(voyages[..|voyages| - 1], ratio) + CeilDiv(voyages[|voyages| - 1].seatsTaken, ratio)
  }

  /** The figures of `p` are the sums over exactly the trips `running`, in list order. */
  ghost predicate Describes(p: Period, running: seq<Trip>, ratio: int)
    requires ratio >= 1
  {
    && p.packageIds == Ids(running)
    && p.plannedPilgrims == Planned(running)
    && p.soldPilgrims == Sold(running)
    && p.guidesNeeded == Guides(running)
    && p.guidesNeededForSold == GuidesForSold(running, ratio)
  }

  predicate In(p: Period, t: int) {
    p.from <= t < p.to
  }

  // ---------------------------------------------------------------- the sweep

  function Identity(x: int): int {
    x
  }

  function AllBornes(voyages: seq<Trip>): seq<int> {
    if voyages == [] then []
    else AllBornes(voyages[..|voyages| - 1]) +
         [voyages[|voyages| - 1].startDate, Fin(voyages[|voyages| - 1])]
  }

  /** `[...new Set(xs)]`: the first occurrence of every value. */
  function Distinct(xs: seq<int>): seq<int> {
    if xs == [] then []
    else Distinct(xs[..|xs| - 1]) + (if xs[|xs| - 1] in xs[..|xs| - 1] then [] else [xs[|xs| - 1]])
  }

  function Instants(voyages: seq<Trip>): seq<int> {
    StableSort(Distinct(AllBornes(voyages)), Identity)
  }

  /** The trips that span a whole piece of the calendar. */
  function Spanning(voyages: seq<Trip>, from: int, to: int): seq<Trip> {
    if voyages == [] then []
    else Spanning(voyages[..|voyages| - 1], from, to) +
         (if voyages[|voyages| - 1].startDate <= from && Fin(voyages[|voyages| - 1]) >= to
          then [voyages[|voyages| - 1]] else [])
  }

  function PeriodOf(running: seq<Trip>, from: int, to: int, ratio: int): Period
    requires ratio >= 1
  {
    Period(from, to, Ids(running), Planned(running), Sold(running), Guides(running), GuidesForSold(running, ratio))
  }

  /** What the piece from one breakpoint to the next contributes: nothing when no trip spans it. */
  function Piece(voyages: seq<Trip>, ratio: int, from: int, to: int): seq<Period>
    requires ratio >= 1
  {
    var running := Spanning(voyages, from, to);
    if running == [] then [] else [PeriodOf(running, from, to, ratio)]
  }

  /** The periods of the first `n` pieces. */
  function PeriodsUpTo(voyages: seq<Trip>, ratio: int, instants: seq<int>, n: nat): seq<Period>
    requires ratio >= 1
    requires n == 0 || n < |instants|
  {
    if n == 0 then []
    else PeriodsUpTo(voyages, ratio, instants, n - 1) + Piece(voyages, ratio, instants[n - 1], instants[n])
  }

  function Pieces(instants: seq<int>): nat {
    if |instants| == 0 then 0 else |instants| - 1
  }

  function Periods(voyages: seq<Trip>, ratio: int): seq<Period>
    requires ratio >= 1
  {
    PeriodsUpTo(voyages, ratio, Instants(voyages), Pieces(Instants(voyages)))
  }

  method PeriodesDeCharge(voyages: seq<Trip>, pilgrimsPerGuide: int) returns (periodes: seq<Period>)
    requires pilgrimsPerGuide >= 1
    ensures periodes == Periods(voyages, pilgrimsPerGuide)
    ensures Ordered(periodes)
    ensures forall t :: RunningAt(voyages, t) != [] <==> exists k :: 0 <= k < |periodes| && In(periodes[k], t)
    ensures forall k, t | 0 <= k < |periodes| && In(periodes[k], t) ::
              Describes(periodes[k], RunningAt(voyages, t), pilgrimsPerGuide)
  {
    hide StableSort, Distinct, AllBornes, Spanning, RunningAt, Ids, Planned, Sold, Guides, GuidesForSold;
    var instants := Instants(voyages);
    periodes := [];
    var i := 0;
    while i < |instants| - 1
      invariant 0 <= i <= Pieces(instants)
      invariant periodes == PeriodsUpTo(voyages, pilgrimsPerGuide, instants, i)
    {
      var from, to := instants[i], instants[i + 1];
      var enCours := Spanning(voyages, from, to);
      i := i + 1;
      if |enCours| == 0 {
        continue;
      }
      periodes := periodes + [PeriodOf(enCours, from, to, pilgrimsPerGuide)];
    }
    PeriodsAreOrdered(voyages, pilgrimsPerGuide);
    PeriodsArePointwise(voyages, pilgrimsPerGuide);
  }

  // ---------------------------------------------------------------- breakpoints

  lemma {:induction false} DistinctCounts(xs: seq<int>)
    ensures forall x :: multiset(Distinct(xs))[x] <= 1
    ensures forall x :: x in Distinct(xs) <==> x in xs
  {
    if xs != [] {
      var init, last := xs[..|xs| - 1], xs[|xs| - 1];
      DistinctCounts(init);
      assert xs == init + [last];
      assert last !in init ==> multiset(Distinct(init))[last] == 0;
    }
  }

  ghost predicate Increasing(xs: seq<int>) {
    forall i, j | 0 <= i < j < |xs| :: xs[i] < xs[j]
  }

  /** The breakpoints are strictly increasing and contain the start and the end of every trip. */
  lemma InstantsAreTheBornes(voyages: seq<Trip>)
    ensures Increasing(Instants(voyages))
    ensures forall v | v in voyages :: v.startDate in Instants(voyages) && Fin(v) in Instants(voyages)
  {
    hide StableSort, Distinct, AllBornes;
    var distinct := Distinct(AllBornes(voyages));
    var sorted := Instants(voyages);
    DistinctCounts(AllBornes(voyages));
    SortedPermutation(distinct, Identity);
    SameElements(distinct, Identity);
    BornesOfTrips(voyages);
    forall i, j | 0 <= i < j < |sorted| ensures sorted[i] < sorted[j] {
      assert Identity(sorted[i]) <= Identity(sorted[j]);
      CountsGiveDistinct(sorted, i, j);
    }
  }

  /** Every breakpoint is the start or the end of some trip. */
  lemma InstantIsABorne(voyages: seq<Trip>, x: int) returns (v: Trip)
    requires x in Instants(voyages)
    ensures v in voyages && (x == v.startDate || x == Fin(v))
  {
    SameElements(Distinct(AllBornes(voyages)), Identity);
    DistinctCounts(AllBornes(voyages));
    v := BorneOfTrip(voyages, x);
  }

  lemma {:induction false} BornesOfTrips(voyages: seq<Trip>)
    ensures forall v | v in voyages :: v.startDate in AllBornes(voyages) && Fin(v) in AllBornes(voyages)
  {
    if voyages != [] {
      BornesOfTrips(voyages[..|voyages| - 1]);
      assert voyages == voyages[..|voyages| - 1] + [voyages[|voyages| - 1]];
    }
  }

  lemma {:induction false} BorneOfTrip(voyages: seq<Trip>, x: int) returns (v: Trip)
    requires x in AllBornes(voyages)
    ensures v in voyages && (x == v.startDate || x == Fin(v))
  {
    if x in AllBornes(voyages[..|voyages| - 1]) {
      v := BorneOfTrip(voyages[..|voyages| - 1], x);
    } else {
      v := voyages[|voyages| - 1];
    }
  }

  // ---------------------------------------------------------------- the sweep is pointwise

  /** Between two consecutive breakpoints the running trips are exactly those spanning the piece. */
  lemma {:induction false} SpanningIsRunning(voyages: seq<Trip>, instants: seq<int>, i: nat, t: int)
    requires i + 1 < |instants| && Increasing(instants)
    requires instants[i] <= t < instants[i + 1]
    requires forall v | v in voyages :: v.startDate in instants && Fin(v) in instants
    ensures Spanning(voyages, instants[i], instants[i + 1]) == RunningAt(voyages, t)
  {
    if voyages != [] {
      var v := voyages[|voyages| - 1];
      assert v in voyages;
      SpanningIsRunning(voyages[..|voyages| - 1], instants, i, t);
      var s :| 0 <= s < |instants| && instants[s] == v.startDate;
      var f :| 0 <= f < |instants| && instants[f] == Fin(v);
      assert v.startDate <= t ==> s <= i;
      assert t < Fin(v) ==> f >= i + 1;
    }
  }

  /** Any instant at or after the first breakpoint and before the last one lies in one piece. */
  lemma {:induction false} FindPiece(instants: seq<int>, n: nat, t: int) returns (i: nat)
    requires n < |instants| && instants[0] <= t < instants[n]
    ensures i < n && instants[i] <= t < instants[i + 1]
  {
    if t >= instants[n - 1] {
      i := n - 1;
    } else {
      i := FindPiece(instants, n - 1, t);
    }
  }

  ghost predicate Ordered(ps: seq<Period>) {
    && (forall k | 0 <= k < |ps| :: ps[k].from < ps[k].to)
    && (forall k, l | 0 <= k < l < |ps| :: ps[k].to <= ps[l].from)
  }

  /** Every period of `ps` ends at or before `limit`. */
  ghost predicate EndBy(ps: seq<Period>, limit: int) {
    forall k | 0 <= k < |ps| :: ps[k].to <= limit
  }

  lemma OrderedAppend(before: seq<Period>, p: Period)
    requires Ordered(before) && EndBy(before, p.from) && p.from < p.to
    ensures Ordered(before + [p]) && EndBy(before + [p], p.to)
  {
  }

  lemma {:induction false} OrderedUpTo(voyages: seq<Trip>, ratio: int, instants: seq<int>, n: nat)
    requires ratio >= 1 && Increasing(instants) && n < |instants|
    ensures Ordered(PeriodsUpTo(voyages, ratio, instants, n))
    ensures EndBy(PeriodsUpTo(voyages, ratio, instants, n), instants[n])
  {
    hide Spanning, Ids, Planned, Sold, Guides, GuidesForSold;
    if n > 0 {
      OrderedUpTo(voyages, ratio, instants, n - 1);
      var before := PeriodsUpTo(voyages, ratio, instants, n - 1);
      var piece := Piece(voyages, ratio, instants[n - 1], instants[n]);
      assert PeriodsUpTo(voyages, ratio, instants, n) == before + piece;
      assert instants[n - 1] < instants[n];
      if piece == [] {
        assert before + piece == before;
      } else {
        OrderedAppend(before, piece[0]);
      }
    }
  }

  /** Periods are nonempty, sorted and disjoint. */
  lemma PeriodsAreOrdered(voyages: seq<Trip>, ratio: int)
    requires ratio >= 1
    ensures Ordered(Periods(voyages, ratio))
  {
    hide StableSort, Distinct, AllBornes, PeriodsUpTo;
    var instants := Instants(voyages);
    InstantsAreTheBornes(voyages);
    if |instants| > 0 {
      OrderedUpTo(voyages, ratio, instants, |instants| - 1);
    } else {
      NoPieces(voyages, ratio, instants);
    }
  }

  lemma NoPieces(voyages: seq<Trip>, ratio: int, instants: seq<int>)
    requires ratio >= 1
    ensures PeriodsUpTo(voyages, ratio, instants, 0) == []
  {
  }

  /** Every produced period is one piece of the calendar. */
  lemma {:induction false} PeriodIsPiece(voyages: seq<Trip>, ratio: int, instants: seq<int>, n: nat, k: nat)
    returns (i: nat)
    requires ratio >= 1
    requires n == 0 || n < |instants|
    requires k < |PeriodsUpTo(voyages, ratio, instants, n)|
    ensures i < n
    ensures Piece(voyages, ratio, instants[i], instants[i + 1]) == [PeriodsUpTo(voyages, ratio, instants, n)[k]]
  {
    hide Spanning, Ids, Planned, Sold, Guides, GuidesForSold;
    if k < |PeriodsUpTo(voyages, ratio, instants, n - 1)| {
      i := PeriodIsPiece(voyages, ratio, instants, n - 1, k);
    } else {
      i := n - 1;
    }
  }

  /** Every piece during which a trip runs is produced. */
  lemma {:induction false} PieceIsPeriod(voyages: seq<Trip>, ratio: int, instants: seq<int>, n: nat, i: nat)
    returns (k: nat)
    requires ratio >= 1 && i < n < |instants|
    requires Piece(voyages, ratio, instants[i], instants[i + 1]) != []
    ensures k < |PeriodsUpTo(voyages, ratio, instants, n)|
    ensures Piece(voyages, ratio, instants[i], instants[i + 1]) == [PeriodsUpTo(voyages, ratio, instants, n)[k]]
  {
    hide Spanning, Ids, Planned, Sold, Guides, GuidesForSold;
    if i == n - 1 {
      k := |PeriodsUpTo(voyages, ratio, instants, n - 1)|;
    } else {
      k := PieceIsPeriod(voyages, ratio, instants, n - 1, i);
    }
  }

  lemma {:induction false} SomeTripRuns(voyages: seq<Trip>, t: int) returns (v: Trip)
    requires RunningAt(voyages, t) != []
    ensures v in voyages && RunsAt(v, t)
  {
    if RunsAt(voyages[|voyages| - 1], t) {
      v := voyages[|voyages| - 1];
    } else {
      v := SomeTripRuns(voyages[..|voyages| - 1], t);
    }
  }

  /** Each period carries, at every instant in it, the figures of exactly the trips running then. */
  lemma PeriodDescribes(voyages: seq<Trip>, ratio: int, k: nat, t: int)
    requires ratio >= 1
    requires k < |Periods(voyages, ratio)| && In(Periods(voyages, ratio)[k], t)
    ensures RunningAt(voyages, t) != []
    ensures Describes(Periods(voyages, ratio)[k], RunningAt(voyages, t), ratio)
  {
    hide StableSort, Distinct, AllBornes, PeriodsUpTo, Spanning, RunningAt, Ids, Planned, Sold, Guides, GuidesForSold;
    var instants := Instants(voyages);
    InstantsAreTheBornes(voyages);
    var i := PeriodIsPiece(voyages, ratio, instants, Pieces(instants), k);
    var p := Periods(voyages, ratio)[k];
    assert [p][0] == Piece(voyages, ratio, instants[i], instants[i + 1])[0];
    SpanningIsRunning(voyages, instants, i, t);
  }

  /** An instant at which some trip runs lies in a piece of the calendar that some trip spans. */
  lemma RunningIsInPiece(voyages: seq<Trip>, instants: seq<int>, t: int) returns (i: nat)
    requires Increasing(instants)
    requires forall v | v in voyages :: v.startDate in instants && Fin(v) in instants
    requires RunningAt(voyages, t) != []
    ensures i + 1 < |instants| && instants[i] <= t < instants[i + 1]
    ensures Spanning(voyages, instants[i], instants[i + 1]) != []
  {
    hide RunningAt, Spanning;
    var v := SomeTripRuns(voyages, t);
    var s :| 0 <= s < |instants| && instants[s] == v.startDate;
    var f :| 0 <= f < |instants| && instants[f] == Fin(v);
    assert instants[0] <= instants[s];
    assert instants[f] <= instants[|instants| - 1];
    i := FindPiece(instants, |instants| - 1, t);
    SpanningIsRunning(voyages, instants, i, t);
  }

  /** An instant at which some trip runs lies in a period. */
  lemma RunningIsInPeriod(voyages: seq<Trip>, ratio: int, t: int) returns (k: nat)
    requires ratio >= 1 && RunningAt(voyages, t) != []
    ensures k < |Periods(voyages, ratio)| && In(Periods(voyages, ratio)[k], t)
  {
    hide StableSort, Distinct, AllBornes, PeriodsUpTo, Spanning, RunningAt, Ids, Planned, Sold, Guides, GuidesForSold;
    var instants := Instants(voyages);
    InstantsAreTheBornes(voyages);
    var i := RunningIsInPiece(voyages, instants, t);
    k := PieceIsPeriod(voyages, ratio, instants, Pieces(instants), i);
    assert [Periods(voyages, ratio)[k]][0] == Piece(voyages, ratio, instants[i], instants[i + 1])[0];
  }

  /** The sweep agrees with the pointwise definition at every instant, for any list of trips. */
  lemma PeriodsArePointwise(voyages: seq<Trip>, ratio: int)
    requires ratio >= 1
    ensures forall t :: RunningAt(voyages, t) != [] <==>
                        exists k :: 0 <= k < |Periods(voyages, ratio)| && In(Periods(voyages, ratio)[k], t)
    ensures forall k, t | 0 <= k < |Periods(voyages, ratio)| && In(Periods(voyages, ratio)[k], t) ::
              Describes(Periods(voyages, ratio)[k], RunningAt(voyages, t), ratio)
  {
    var ps := Periods(voyages, ratio);
    forall k, t | 0 <= k < |ps| && In(ps[k], t)
      ensures RunningAt(voyages, t) != [] && Describes(ps[k], RunningAt(voyages, t), ratio)
    {
      PeriodDescribes(voyages, ratio, k, t);
    }
    forall t | RunningAt(voyages, t) != [] ensures exists k :: 0 <= k < |ps| && In(ps[k], t) {
      var k := RunningIsInPeriod(voyages, ratio, t);
    }
  }

  // ---------------------------------------------------------------- the figures of an instant

  /** From the first day to midnight of the last, a day being written out in milliseconds. */
  predicate UnderWay(v: Trip, t: int) {
    v.startDate <= t < v.endDate + 86_400_000
  }

  /** The sum of a figure over the trips under way. */
  function SumUnderWay(voyages: seq<Trip>, t: int, figure: Trip -> int): int {
    if voyages == [] then 0
    else SumUnderWay(voyages[..|voyages| - 1], t, figure) +
         if UnderWay(voyages[|voyages| - 1], t) then figure(voyages[|voyages| - 1]) else 0
  }

  function CapacityOf(v: Trip): int {
    v.capacity
  }

  function SeatsOf(v: Trip): int {
    v.seatsTaken
  }

  function GuidesNeededBy(v: Trip): int {
    v.guidesNeeded
  }

  /** Guides for the seats sold of a trip, at one guide for `ratio` pilgrims. */
  function GuidesForSeatsOf(ratio: int): Trip -> int
    requires ratio >= 1
  {
    (v: Trip) => CeilDiv(v.seatsTaken, ratio)
  }

  lemma FiguresOfOneMore(running: seq<Trip>, v: Trip, ratio: int)
    requires ratio >= 1
    ensures Planned(running + [v]) == Planned(running) + v.capacity
    ensures Sold(running + [v]) == Sold(running) + v.seatsTaken
    ensures Guides(running + [v]) == Guides(running) + v.guidesNeeded
    ensures GuidesForSold(running + [v], ratio) == GuidesForSold(running, ratio) + CeilDiv(v.seatsTaken, ratio)
    ensures Ids(running + [v]) == Ids(running) + [v.packageId]
  {
    assert (running + [v])[..|running|] == running;
  }

  /** What a period says of an instant in it: sums over the trips under way then, and their packages. */
  lemma {:induction false} FiguresOfRunning(voyages: seq<Trip>, t: int, ratio: int)
    requires ratio >= 1
    ensures Planned(RunningAt(voyages, t)) == SumUnderWay(voyages, t, CapacityOf)
    ensures Sold(RunningAt(voyages, t)) == SumUnderWay(voyages, t, SeatsOf)
    ensures Guides(RunningAt(voyages, t)) == SumUnderWay(voyages, t, GuidesNeededBy)
    ensures GuidesForSold(RunningAt(voyages, t), ratio) == SumUnderWay(voyages, t, GuidesForSeatsOf(ratio))
    ensures forall v :: v in RunningAt(voyages, t) <==> v in voyages && UnderWay(v, t)
  {
    if voyages != [] {
      var init, v := voyages[..|voyages| - 1], voyages[|voyages| - 1];
      assert voyages == init + [v];
      FiguresOfRunning(init, t, ratio);
      FiguresOfOneMore(RunningAt(init, t), v, ratio);
      assert RunsAt(v, t) <==> UnderWay(v, t);
      assert RunningAt(init, t) + [] == RunningAt(init, t);
      hide Planned, Sold, Guides, GuidesForSold, Ids, CeilDiv;
    }
  }

  /**
   * The produced periods, stated on trips and instants alone: an instant is in a period exactly when a trip is
   * under way, and the figures of the period are then the sums over the trips under way.
   */
  lemma PeriodsAddUp(voyages: seq<Trip>, ratio: int, t: int)
    requires ratio >= 1
    ensures (exists k :: 0 <= k < |Periods(voyages, ratio)| && In(Periods(voyages, ratio)[k], t)) <==>
            exists v :: v in voyages && UnderWay(v, t)
    ensures forall k | 0 <= k < |Periods(voyages, ratio)| && In(Periods(voyages, ratio)[k], t) ::
              var p := Periods(voyages, ratio)[k];
              && p.plannedPilgrims == SumUnderWay(voyages, t, CapacityOf)
              && p.soldPilgrims == SumUnderWay(voyages, t, SeatsOf)
              && p.guidesNeeded == SumUnderWay(voyages, t, GuidesNeededBy)
              && p.guidesNeededForSold == SumUnderWay(voyages, t, GuidesForSeatsOf(ratio))
              && (forall id :: id in p.packageIds <==> exists v :: v in voyages && UnderWay(v, t) && v.packageId == id)
  {
    hide Periods, Planned, Sold, Guides, GuidesForSold, SumUnderWay, UnderWay, Ids, RunningAt;
    PeriodsArePointwise(voyages, ratio);
    FiguresOfRunning(voyages, t, ratio);
    var running := RunningAt(voyages, t);
    forall id ensures id in Ids(running) <==> exists v :: v in voyages && UnderWay(v, t) && v.packageId == id {
      IdsMembers(running, id);
    }
    assert running != [] <==> exists v :: v in voyages && UnderWay(v, t) by {
      if running != [] {
        assert running[0] in running;
      }
    }
  }

  // ---------------------------------------------------------------- periods are maximal

  ghost predicate DistinctIds(voyages: seq<Trip>) {
    forall i, j | 0 <= i < j < |voyages| :: voyages[i].packageId != voyages[j].packageId
  }

  lemma {:induction false} RunningMembers(voyages: seq<Trip>, t: int, v: Trip)
    ensures v in RunningAt(voyages, t) <==> v in voyages && RunsAt(v, t)
  {
    if voyages != [] {
      RunningMembers(voyages[..|voyages| - 1], t, v);
      assert voyages == voyages[..|voyages| - 1] + [voyages[|voyages| - 1]];
    }
  }

  lemma {:induction false} IdsMembers(voyages: seq<Trip>, id: string)
    ensures id in Ids(voyages) <==> exists v :: v in voyages && v.packageId == id
  {
    if voyages != [] {
      IdsMembers(voyages[..|voyages| - 1], id);
      assert voyages == voyages[..|voyages| - 1] + [voyages[|voyages| - 1]];
    }
  }

  /** With one trip per package, a package is listed at an instant exactly when its trip runs. */
  lemma ListedIffRunning(voyages: seq<Trip>, t: int, v: Trip)
    requires DistinctIds(voyages) && v in voyages
    ensures v.packageId in Ids(RunningAt(voyages, t)) <==> RunsAt(v, t)
  {
    IdsMembers(RunningAt(voyages, t), v.packageId);
    RunningMembers(voyages, t, v);
    if v.packageId in Ids(RunningAt(voyages, t)) {
      var u :| u in RunningAt(voyages, t) && u.packageId == v.packageId;
      RunningMembers(voyages, t, u);
      assert u == v;
    }
  }

  /** The trip starts or ends at `t`, having run for some time. */
  predicate Switches(v: Trip, t: int) {
    v.startDate < Fin(v) && (t == v.startDate || t == Fin(v))
  }

  /** From one breakpoint to the next, a trip starts or stops running exactly when it switches at the second. */
  lemma RunsDifferentlyIffSwitches(voyages: seq<Trip>, instants: seq<int>, i: nat, v: Trip)
    requires i + 1 < |instants| && Increasing(instants)
    requires v in voyages && v.startDate in instants && Fin(v) in instants
    ensures RunsAt(v, instants[i]) != RunsAt(v, instants[i + 1]) <==> Switches(v, instants[i + 1])
  {
    var s :| 0 <= s < |instants| && instants[s] == v.startDate;
    var f :| 0 <= f < |instants| && instants[f] == Fin(v);
    assert s <= i || s == i + 1 || s > i + 1;
    assert f <= i || f == i + 1 || f > i + 1;
  }

  lemma {:induction false} SameRunning(voyages: seq<Trip>, t: int, u: int)
    requires forall v | v in voyages :: RunsAt(v, t) == RunsAt(v, u)
    ensures RunningAt(voyages, t) == RunningAt(voyages, u)
  {
    if voyages != [] {
      assert voyages == voyages[..|voyages| - 1] + [voyages[|voyages| - 1]];
      SameRunning(voyages[..|voyages| - 1], t, u);
    }
  }

  /**
   * Two periods that touch list different packages if and only if some trip of positive duration starts or
   * ends where they meet; a trip that ends before it starts cuts a period without changing its list.
   */
  lemma AdjacentPeriodsDiffer(voyages: seq<Trip>, ratio: int, k: nat)
    requires ratio >= 1 && DistinctIds(voyages)
    requires k + 1 < |Periods(voyages, ratio)|
    requires Periods(voyages, ratio)[k].to == Periods(voyages, ratio)[k + 1].from
    ensures Periods(voyages, ratio)[k].packageIds != Periods(voyages, ratio)[k + 1].packageIds <==>
            exists v :: v in voyages && Switches(v, Periods(voyages, ratio)[k].to)
  {
    hide StableSort, Distinct, AllBornes, PeriodsUpTo, Spanning, RunningAt, Ids, Planned, Sold, Guides, GuidesForSold,
         RunsAt, Switches;
    var instants := Instants(voyages);
    var p, q := Periods(voyages, ratio)[k], Periods(voyages, ratio)[k + 1];
    InstantsAreTheBornes(voyages);
    PeriodsAreOrdered(voyages, ratio);
    var i := PeriodIsPiece(voyages, ratio, instants, Pieces(instants), k);
    assert [p][0] == Piece(voyages, ratio, instants[i], instants[i + 1])[0];
    PeriodDescribes(voyages, ratio, k, p.from);
    PeriodDescribes(voyages, ratio, k + 1, q.from);
    if v :| v in voyages && Switches(v, q.from) {
      RunsDifferentlyIffSwitches(voyages, instants, i, v);
      ListedIffRunning(voyages, p.from, v);
      ListedIffRunning(voyages, q.from, v);
    } else {
      forall v | v in voyages ensures RunsAt(v, p.from) == RunsAt(v, q.from) {
        RunsDifferentlyIffSwitches(voyages, instants, i, v);
      }
      SameRunning(voyages, p.from, q.from);
    }
  }

  /** With positive durations, and one trip a package, periods are never cut without reason. */
  lemma PeriodsAreMaximal(voyages: seq<Trip>, ratio: int, k: nat)
    requires ratio >= 1 && DistinctIds(voyages)
    requires forall v | v in voyages :: v.startDate < Fin(v)
    requires k + 1 < |Periods(voyages, ratio)|
    requires Periods(voyages, ratio)[k].to == Periods(voyages, ratio)[k + 1].from
    ensures Periods(voyages, ratio)[k].packageIds != Periods(voyages, ratio)[k + 1].packageIds
  {
    hide StableSort, Distinct, AllBornes, PeriodsUpTo, Spanning, RunningAt, Ids, Planned, Sold, Guides, GuidesForSold;
    var instants := Instants(voyages);
    InstantsAreTheBornes(voyages);
    var i := PeriodIsPiece(voyages, ratio, instants, Pieces(instants), k);
    assert [Periods(voyages, ratio)[k]][0] == Piece(voyages, ratio, instants[i], instants[i + 1])[0];
    var v := InstantIsABorne(voyages, Periods(voyages, ratio)[k].to);
    assert Switches(v, Periods(voyages, ratio)[k].to);
    AdjacentPeriodsDiffer(voyages, ratio, k);
  }

  /** No period extends over a breakpoint. */
  lemma BreakpointCuts(voyages: seq<Trip>, ratio: int, k: nat, x: int)
    requires ratio >= 1 && x in Instants(voyages) && k < |Periods(voyages, ratio)|
    ensures Periods(voyages, ratio)[k].to <= x || x <= Periods(voyages, ratio)[k].from
  {
    hide StableSort, Distinct, AllBornes, PeriodsUpTo, Spanning, Ids, Planned, Sold, Guides, GuidesForSold;
    var instants := Instants(voyages);
    InstantsAreTheBornes(voyages);
    var i := PeriodIsPiece(voyages, ratio, instants, Pieces(instants), k);
    assert [Periods(voyages, ratio)[k]][0] == Piece(voyages, ratio, instants[i], instants[i + 1])[0];
    var j :| 0 <= j < |instants| && instants[j] == x;
    assert j <= i || j >= i + 1;
  }

  lemma SomethingBetween(ps: seq<Period>, k: nat, m: nat, l: nat)
    requires Ordered(ps) && k < m < l < |ps|
    ensures ps[k].to < ps[l].from
  {
    assert ps[k].to <= ps[m].from < ps[m].to <= ps[l].from;
  }

  lemma NothingBetween(ps: seq<Period>, k: nat, l: nat)
    requires Ordered(ps) && k < l < |ps| && ps[k].to == ps[l].from
    ensures l == k + 1
  {
    if k + 1 < l {
      SomethingBetween(ps, k, k + 1, l);
    }
  }

  /** A trip that ends, at 3, before it starts, at 5, cuts the period of another trip in two with equal lists. */
  lemma InvertedTripCutsAPeriod() returns (k: nat)
    ensures var voyages := [Trip("a", 0, 10 - JOUR_MS, 1, 0, 1, 0), Trip("b", 5, 3 - JOUR_MS, 1, 0, 1, 0)];
            var ps := Periods(voyages, 1);
            && k + 1 < |ps| && ps[k].to == 3 == ps[k + 1].from && ps[k].packageIds == ps[k + 1].packageIds
  {
    var a, b := Trip("a", 0, 10 - JOUR_MS, 1, 0, 1, 0), Trip("b", 5, 3 - JOUR_MS, 1, 0, 1, 0);
    var voyages := [a, b];
    var ps := Periods(voyages, 1);
    assert a in voyages && b in voyages;
    RunningMembers(voyages, 2, a);
    RunningMembers(voyages, 3, a);
    hide Periods, RunningAt;
    k := RunningIsInPeriod(voyages, 1, 2);
    var l := RunningIsInPeriod(voyages, 1, 3);
    InstantsAreTheBornes(voyages);
    BreakpointCuts(voyages, 1, k, 3);
    BreakpointCuts(voyages, 1, l, 3);
    PeriodsAreOrdered(voyages, 1);
    assert k < l && ps[k].to == 3 == ps[l].from;
    NothingBetween(ps, k, l);
    AdjacentPeriodsDiffer(voyages, 1, k);
  }

  // ---------------------------------------------------------------- the simulation

  datatype Forfait = Forfait(id: string, startDate: int, endDate: int, capacity: nat, seatsTaken: nat,
                             guideIds: seq<Option<string>>)

  datatype Simulation = Simulation(staff: int, trips: seq<Trip>, periods: seq<Period>, peak: Option<Period>,
                                   spareGuidesAtPeak: int, extraPilgrimsAtPeak: int)

  /** The guides named by at least one group. */
  function GuideSet(guideIds: seq<Option<string>>): set<string> {
    set g | g in guideIds && g.Some? :: g.value
  }

  function ToTrip(f: Forfait, ratio: int): Trip
    requires ratio >= 1
  {
    Trip(f.id, f.startDate, f.endDate, f.capacity, f.seatsTaken, CeilDiv(f.capacity, ratio), |GuideSet(f.guideIds)|)
  }

  function StartOf(f: Forfait): int {
    f.startDate
  }

  /** Packages that end today or later. */
  function Upcoming(forfaits: seq<Forfait>, debutDuJour: int): seq<Forfait> {
    if forfaits == [] then []
    else Upcoming(forfaits[..|forfaits| - 1], debutDuJour) +
         (if forfaits[|forfaits| - 1].endDate >= debutDuJour then [forfaits[|forfaits| - 1]] else [])
  }

  function ToTrips(forfaits: seq<Forfait>, ratio: int): seq<Trip>
    requires ratio >= 1
  {
    if forfaits == [] then []
    else ToTrips(forfaits[..|forfaits| - 1], ratio) + [ToTrip(forfaits[|forfaits| - 1], ratio)]
  }

  function TripsFor(forfaits: seq<Forfait>, debutDuJour: int, ratio: int): seq<Trip>
    requires ratio >= 1
  {
    ToTrips(StableSort(Upcoming(forfaits, debutDuJour), StartOf), ratio)
  }

  /** The least number of guides for so many pilgrims. */
  lemma CeilDivIsLeast(n: nat, d: int)
    requires d >= 1
    ensures CeilDiv(n, d) * d >= n
    ensures forall g: nat | g * d >= n :: CeilDiv(n, d) <= g
  {
    CeilDivAtMost(n, d, CeilDiv(n, d));
    forall g: nat | g * d >= n ensures CeilDiv(n, d) <= g {
      CeilDivAtMost(n, d, g);
    }
  }

  /** The guides of the groups of a package, each counted once. */
  ghost predicate GuidesOf(guides: set<string>, guideIds: seq<Option<string>>) {
    forall g :: g in guides <==> Some(g) in guideIds
  }

  lemma GuideSetIsGuides(guideIds: seq<Option<string>>)
    ensures GuidesOf(GuideSet(guideIds), guideIds)
  {
    forall g ensures g in GuideSet(guideIds) <==> Some(g) in guideIds {
      if Some(g) in guideIds {
        assert Some(g).value in GuideSet(guideIds);
      }
    }
  }

  /**
   * What the simulator makes of a package: its dates and figures, the least number of guides its capacity needs,
   * and the number of its distinct guides.
   */
  ghost predicate TripOf(v: Trip, f: Forfait, ratio: int) {
    && v.packageId == f.id && v.startDate == f.startDate && v.endDate == f.endDate
    && v.capacity == f.capacity && v.seatsTaken == f.seatsTaken
    && v.guidesNeeded * ratio >= f.capacity && (forall g: nat | g * ratio >= f.capacity :: v.guidesNeeded <= g)
    && exists guides :: GuidesOf(guides, f.guideIds) && v.guidesAssigned == |guides|
  }

  lemma ToTripIsTripOf(f: Forfait, ratio: int)
    requires ratio >= 1
    ensures TripOf(ToTrip(f, ratio), f, ratio)
  {
    CeilDivIsLeast(f.capacity, ratio);
    GuideSetIsGuides(f.guideIds);
  }

  lemma {:induction false} UpcomingCounts(forfaits: seq<Forfait>, debutDuJour: int)
    ensures forall f :: multiset(Upcoming(forfaits, debutDuJour))[f] ==
                        if f.endDate >= debutDuJour then multiset(forfaits)[f] else 0
  {
    if forfaits != [] {
      assert forfaits == forfaits[..|forfaits| - 1] + [forfaits[|forfaits| - 1]];
      UpcomingCounts(forfaits[..|forfaits| - 1], debutDuJour);
    }
  }

  lemma ClassOfOneMore(forfaits: seq<Forfait>, f: Forfait, start: int)
    ensures Class(forfaits + [f], StartOf, start) ==
            if f.startDate == start then Class(forfaits, StartOf, start) + [f] else Class(forfaits, StartOf, start)
  {
    ClassConcat(forfaits, [f], StartOf, start);
    assert [f][1..] == [];
    assert Class([f], StartOf, start) == if f.startDate == start then [f] else [];
  }

  lemma {:induction false} UpcomingClasses(forfaits: seq<Forfait>, debutDuJour: int, start: int)
    ensures Class(Upcoming(forfaits, debutDuJour), StartOf, start) == NotEnded(Class(forfaits, StartOf, start), debutDuJour)
  {
    if forfaits != [] {
      var init, f := forfaits[..|forfaits| - 1], forfaits[|forfaits| - 1];
      assert forfaits == init + [f];
      UpcomingClasses(init, debutDuJour, start);
      ClassOfOneMore(init, f, start);
      ClassOfOneMore(Upcoming(init, debutDuJour), f, start);
      NotEndedSnoc(Class(init, StartOf, start), f, debutDuJour);
      assert Upcoming(forfaits, debutDuJour) ==
             if f.endDate >= debutDuJour then Upcoming(init, debutDuJour) + [f] else Upcoming(init, debutDuJour);
      hide Class, NotEnded, Upcoming;
    }
  }

  /** The packages of a list that end on `day` or later, in order. */
  function NotEnded(forfaits: seq<Forfait>, day: int): seq<Forfait> {
    if forfaits == [] then []
    else NotEnded(forfaits[..|forfaits| - 1], day) +
         (if forfaits[|forfaits| - 1].endDate < day then [] else [forfaits[|forfaits| - 1]])
  }

  lemma NotEndedSnoc(forfaits: seq<Forfait>, f: Forfait, day: int)
    ensures NotEnded(forfaits + [f], day) == NotEnded(forfaits, day) + (if f.endDate < day then [] else [f])
  {
    assert (forfaits + [f])[..|forfaits|] == forfaits;
  }

  lemma {:induction false} ToTripsOneByOne(forfaits: seq<Forfait>, ratio: int)
    requires ratio >= 1
    ensures |ToTrips(forfaits, ratio)| == |forfaits|
    ensures forall i | 0 <= i < |forfaits| :: TripOf(ToTrips(forfaits, ratio)[i], forfaits[i], ratio)
  {
    if forfaits != [] {
      ToTripsOneByOne(forfaits[..|forfaits| - 1], ratio);
      ToTripIsTripOf(forfaits[|forfaits| - 1], ratio);
      hide TripOf, ToTrip;
    }
  }

  /**
   * The trips, stated on the packages alone: one for each package that ends today or later, by start, packages
   * that start together keeping their order.
   */
  ghost predicate AreTripsOf(trips: seq<Trip>, forfaits: seq<Forfait>, debutDuJour: int, ratio: int) {
    exists kept: seq<Forfait> ::
      && (forall f :: multiset(kept)[f] == if f.endDate >= debutDuJour then multiset(forfaits)[f] else 0)
      && (forall i, j | 0 <= i < j < |kept| :: kept[i].startDate <= kept[j].startDate)
      && (forall start :: Class(kept, StartOf, start) == NotEnded(Class(forfaits, StartOf, start), debutDuJour))
      && |trips| == |kept|
      && forall i | 0 <= i < |kept| :: TripOf(trips[i], kept[i], ratio)
  }

  lemma TripsForAreTrips(forfaits: seq<Forfait>, debutDuJour: int, ratio: int)
    requires ratio >= 1
    ensures AreTripsOf(TripsFor(forfaits, debutDuJour, ratio), forfaits, debutDuJour, ratio)
  {
    hide StableSort, Class, NotEnded, Upcoming, TripOf, ToTrips;
    var upcoming := Upcoming(forfaits, debutDuJour);
    var kept := StableSort(upcoming, StartOf);
    UpcomingCounts(forfaits, debutDuJour);
    SortedPermutation(upcoming, StartOf);
    forall start ensures Class(kept, StartOf, start) == NotEnded(Class(forfaits, StartOf, start), debutDuJour) {
      Stability(upcoming, StartOf, start);
      UpcomingClasses(forfaits, debutDuJour, start);
    }
    assert forall i, j | 0 <= i < j < |kept| :: StartOf(kept[i]) <= StartOf(kept[j]);
    ToTripsOneByOne(kept, ratio);
  }

  /** The first of the periods that need the most guides. */
  function Peak(periods: seq<Period>): Option<Period> {
    if periods == [] then None
    else
      var last := periods[|periods| - 1];
      match Peak(periods[..|periods| - 1])
      case None => Some(last)
      case Some(max) => if last.guidesNeeded > max.guidesNeeded then Some(last) else Some(max)
  }

  function GuidesAtPeak(voyages: seq<Trip>, ratio: int): int
    requires ratio >= 1
  {
    match Peak(Periods(voyages, ratio))
    case Some(p) => p.guidesNeeded
    case None => 0
  }

  function Spare(voyages: seq<Trip>, ratio: int, staff: int): int
    requires ratio >= 1
  {
    staff - GuidesAtPeak(voyages, ratio)
  }

  function ExtraPilgrims(voyages: seq<Trip>, ratio: int, staff: int): nat
    requires ratio >= 1
  {
    Max(0, Spare(voyages, ratio, staff)) * ratio
  }

  /** Guides needed at an instant by the trips running then. */
  function DemandAt(voyages: seq<Trip>, t: int): nat {
    Guides(RunningAt(voyages, t))
  }

  /** Demand never exceeds `level`, and reaches it when there is a trip to guide at all. */
  ghost predicate IsPeakDemand(voyages: seq<Trip>, level: int) {
    && (forall t :: DemandAt(voyages, t) <= level)
    && ((exists t :: DemandAt(voyages, t) == level) || level == 0)
  }

  method Simulate(guides: nat, forfaits: seq<Forfait>, pilgrimsPerGuide: int, extraGuides: nat, debutDuJour: int)
    returns (s: Simulation)
    requires pilgrimsPerGuide >= 1
    ensures s.staff == guides + extraGuides
    ensures s.trips == TripsFor(forfaits, debutDuJour, pilgrimsPerGuide)
    ensures AreTripsOf(s.trips, forfaits, debutDuJour, pilgrimsPerGuide)
    ensures s.periods == Periods(s.trips, pilgrimsPerGuide) && s.peak == Peak(s.periods)
    ensures IsPeakDemand(s.trips, s.staff - s.spareGuidesAtPeak)
    ensures s.spareGuidesAtPeak == Spare(s.trips, pilgrimsPerGuide, s.staff)
    ensures s.extraPilgrimsAtPeak == ExtraPilgrims(s.trips, pilgrimsPerGuide, s.staff)
  {
    hide Periods, Peak, RunningAt, Guides, ToTrips, AreTripsOf;
    var trips := TripsFor(forfaits, debutDuJour, pilgrimsPerGuide);
    TripsForAreTrips(forfaits, debutDuJour, pilgrimsPerGuide);
    var periods := PeriodesDeCharge(trips, pilgrimsPerGuide);
    var peak := Peak(periods);
    var staff := guides + extraGuides;
    var spare := staff - (match peak case Some(p) => p.guidesNeeded case None => 0);
    PeakIsPeakDemand(trips, pilgrimsPerGuide);
    s := Simulation(staff, trips, periods, peak, spare, Max(0, spare) * pilgrimsPerGuide);
  }

  /** The peak is a period, no period needs more guides, and no earlier one needs as many. */
  lemma {:induction false} PeakIsFirstMaximum(periods: seq<Period>) returns (k: nat)
    requires periods != []
    ensures k < |periods| && Peak(periods) == Some(periods[k])
    ensures forall l | 0 <= l < |periods| :: periods[l].guidesNeeded <= periods[k].guidesNeeded
    ensures forall l | 0 <= l < k :: periods[l].guidesNeeded < periods[k].guidesNeeded
  {
    var init := periods[..|periods| - 1];
    if init == [] {
      k := 0;
    } else {
      k := PeakIsFirstMaximum(init);
      assert periods == init + [periods[|periods| - 1]];
      if periods[|periods| - 1].guidesNeeded > init[k].guidesNeeded {
        k := |init|;
      }
    }
  }

  /** The reported peak bounds guide demand at every instant, and is reached. */
  lemma PeakIsPeakDemand(voyages: seq<Trip>, ratio: int)
    requires ratio >= 1
    ensures IsPeakDemand(voyages, GuidesAtPeak(voyages, ratio))
  {
    hide Periods, RunningAt, Ids, Planned, Sold, GuidesForSold;
    var ps := Periods(voyages, ratio);
    forall t ensures DemandAt(voyages, t) <= GuidesAtPeak(voyages, ratio) {
      DemandBelowPeak(voyages, ratio, t);
    }
    if ps != [] {
      var k := PeakIsFirstMaximum(ps);
      PeriodsAreOrdered(voyages, ratio);
      PeriodDescribes(voyages, ratio, k, ps[k].from);
      assert DemandAt(voyages, ps[k].from) == GuidesAtPeak(voyages, ratio);
    }
  }

  lemma DemandBelowPeak(voyages: seq<Trip>, ratio: int, t: int)
    requires ratio >= 1
    ensures DemandAt(voyages, t) <= GuidesAtPeak(voyages, ratio)
  {
    hide Periods, RunningAt, Ids, Planned, Sold, GuidesForSold, Peak;
    var ps := Periods(voyages, ratio);
    if ps != [] {
      var k := PeakIsFirstMaximum(ps);
    } else {
      NoPeak(ps);
    }
    if RunningAt(voyages, t) != [] {
      var l := RunningIsInPeriod(voyages, ratio, t);
      PeriodDescribes(voyages, ratio, l, t);
    }
  }

  lemma NoPeak(periods: seq<Period>)
    requires periods == []
    ensures Peak(periods) == None
  {
  }

  // ---------------------------------------------------------------- room for one more trip

  /** One more trip of `pilgrims` pilgrims on the given dates. */
  function NewTrip(pilgrims: nat, startDate: int, endDate: int, ratio: int): Trip
    requires ratio >= 1
  {
    Trip("", startDate, endDate, pilgrims, 0, CeilDiv(pilgrims, ratio), 0)
  }

  lemma CeilDivAtMost(c: nat, d: int, k: int)
    requires d >= 1
    ensures CeilDiv(c, d) <= k <==> c <= k * d
  {
    var q := CeilDiv(c, d);
    assert q * d <= c + d - 1 < q * d + d;
    if q <= k {
      assert q * d <= k * d;
    } else {
      assert (k + 1) * d <= q * d;
    }
  }

  lemma DemandWithOneMore(voyages: seq<Trip>, n: Trip, t: int)
    ensures DemandAt(voyages + [n], t) == DemandAt(voyages, t) + (if RunsAt(n, t) then n.guidesNeeded else 0)
  {
    var more := voyages + [n];
    assert more[..|more| - 1] == voyages;
    if RunsAt(n, t) {
      var running := RunningAt(voyages, t) + [n];
      assert RunningAt(more, t) == running;
      assert running[..|running| - 1] == RunningAt(voyages, t);
    } else {
      assert RunningAt(more, t) == RunningAt(voyages, t);
    }
  }

  /** The staff suffices at every instant exactly when no guide is missing at the peak. */
  lemma StaffSuffices(voyages: seq<Trip>, ratio: int, staff: int)
    requires ratio >= 1 && staff >= 0
    ensures Spare(voyages, ratio, staff) >= 0 <==> forall t :: DemandAt(voyages, t) <= staff
  {
    hide Periods, Peak, RunningAt, Guides;
    PeakIsPeakDemand(voyages, ratio);
  }

  /** `extraPilgrimsAtPeak` pilgrims fit on any dates whatever, as soon as the present trips are staffed. */
  lemma ExtraPilgrimsFit(voyages: seq<Trip>, ratio: int, staff: int, pilgrims: nat, startDate: int, endDate: int)
    requires ratio >= 1 && staff >= 0 && Spare(voyages, ratio, staff) >= 0
    requires pilgrims <= ExtraPilgrims(voyages, ratio, staff)
    ensures Spare(voyages + [NewTrip(pilgrims, startDate, endDate, ratio)], ratio, staff) >= 0
  {
    hide Periods, Peak, RunningAt, Guides;
    var n := NewTrip(pilgrims, startDate, endDate, ratio);
    PeakIsPeakDemand(voyages, ratio);
    CeilDivAtMost(pilgrims, ratio, Spare(voyages, ratio, staff));
    forall t ensures DemandAt(voyages + [n], t) <= staff {
      DemandWithOneMore(voyages, n, t);
      assert DemandAt(voyages, t) <= GuidesAtPeak(voyages, ratio);
    }
    StaffSuffices(voyages + [n], ratio, staff);
  }

  /** One pilgrim more than that, placed over the peak, does not fit. */
  lemma OneMoreDoesNotFit(voyages: seq<Trip>, ratio: int, staff: int, pilgrims: nat, startDate: int, endDate: int)
    requires ratio >= 1 && staff >= 0
    requires pilgrims > ExtraPilgrims(voyages, ratio, staff)
    requires DemandAt(voyages, startDate) == GuidesAtPeak(voyages, ratio) && startDate < endDate + JOUR_MS
    ensures Spare(voyages + [NewTrip(pilgrims, startDate, endDate, ratio)], ratio, staff) < 0
  {
    hide Periods, Peak, RunningAt, Guides;
    var n := NewTrip(pilgrims, startDate, endDate, ratio);
    CeilDivAtMost(pilgrims, ratio, Max(0, Spare(voyages, ratio, staff)));
    DemandWithOneMore(voyages, n, startDate);
    StaffSuffices(voyages + [n], ratio, staff);
  }

  /** A trip already missing guides still misses them with one more trip. */
  lemma MissingGuidesStayMissing(voyages: seq<Trip>, ratio: int, staff: int, n: Trip)
    requires ratio >= 1 && staff >= 0 && Spare(voyages, ratio, staff) < 0
    ensures Spare(voyages + [n], ratio, staff) < 0
  {
    hide Periods, Peak, RunningAt, Guides;
    StaffSuffices(voyages, ratio, staff);
    StaffSuffices(voyages + [n], ratio, staff);
    var t :| DemandAt(voyages, t) > staff;
    DemandWithOneMore(voyages, n, t);
  }

  /**
   * The figure is exact: one more trip of `pilgrims` pilgrims can be staffed whatever its dates if
   * and only if the present trips are staffed and `pilgrims` is at most `extraPilgrimsAtPeak`.
   */
  lemma ExtraPilgrimsAreExact(voyages: seq<Trip>, ratio: int, staff: int, pilgrims: nat)
    requires ratio >= 1 && staff >= 0
    ensures (forall startDate, endDate ::
               Spare(voyages + [NewTrip(pilgrims, startDate, endDate, ratio)], ratio, staff) >= 0)
            <==> Spare(voyages, ratio, staff) >= 0 && pilgrims <= ExtraPilgrims(voyages, ratio, staff)
  {
    hide Periods, Peak, RunningAt, Guides, Spare, ExtraPilgrims;
    if Spare(voyages, ratio, staff) < 0 {
      MissingGuidesStayMissing(voyages, ratio, staff, NewTrip(pilgrims, 0, 0, ratio));
    } else if pilgrims <= ExtraPilgrims(voyages, ratio, staff) {
      forall startDate, endDate
        ensures Spare(voyages + [NewTrip(pilgrims, startDate, endDate, ratio)], ratio, staff) >= 0
      {
        ExtraPilgrimsFit(voyages, ratio, staff, pilgrims, startDate, endDate);
      }
    } else {
      var t := InstantOfPeak(voyages, ratio);
      OneMoreDoesNotFit(voyages, ratio, staff, pilgrims, t, t);
    }
  }

  lemma InstantOfPeak(voyages: seq<Trip>, ratio: int) returns (t: int)
    requires ratio >= 1
    ensures DemandAt(voyages, t) == GuidesAtPeak(voyages, ratio)
  {
    hide Periods, Peak, RunningAt, Guides;
    PeakIsPeakDemand(voyages, ratio);
    if GuidesAtPeak(voyages, ratio) == 0 {
      t := 0;
      assert DemandAt(voyages, t) <= 0;
    } else {
      t :| DemandAt(voyages, t) == GuidesAtPeak(voyages, ratio);
    }
  }
}
