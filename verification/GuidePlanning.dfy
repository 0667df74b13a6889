/**
 * Guide planning: overlapping entries of a schedule are reported as conflicts, and a guide is only
 * assigned to a group when no other group or declared absence of theirs overlaps its dates.
 */
module GuidePlanning {
  import opened Basics
  import opened Sorting
  import Capacity

  datatype Kind = GroupEntry | UnavailabilityEntry

  datatype Entry = Entry(kind: Kind, id: string, startDate: int, endDate: int)

  datatype Conflict = Conflict(firstId: string, secondId: string, startDate: int, endDate: int)

  datatype Periode = Periode(startDate: int, endDate: int)

  /** Both bounds are included. */
  predicate Chevauche(a: Periode, b: Periode) {
    a.startDate <= b.endDate && b.startDate <= a.endDate
  }

  predicate Holds(p: Periode, t: int) {
    p.startDate <= t <= p.endDate
  }

  /** Some day belongs to both. */
  ghost predicate CommonDay(a: Periode, b: Periode) {
    exists t :: Holds(a, t) && Holds(b, t)
  }

  predicate InOrder(p: Periode) {
    p.startDate <= p.endDate
  }

  /** The comparison of bounds is what it stands for: two periods in order overlap exactly when they share a day. */
  lemma ChevaucheIffCommonDay(a: Periode, b: Periode)
    requires InOrder(a) && InOrder(b)
    ensures Chevauche(a, b) <==> CommonDay(a, b)
  {
    if Chevauche(a, b) {
      var t := Max(a.startDate, b.startDate);
      assert Holds(a, t) && Holds(b, t);
    }
  }

  function Dates(e: Entry): Periode {
    Periode(e.startDate, e.endDate)
  }

  // ---------------------------------------------------------------- conflicts of a schedule

  predicate OverlapAt(entrees: seq<Entry>, i: nat, j: nat)
    requires i < |entrees| && j < |entrees|
  {
    Chevauche(Dates(entrees[i]), Dates(entrees[j]))
  }

  function ConflictOf(a: Entry, b: Entry): Conflict {
    Conflict(a.id, b.id, if a.startDate > b.startDate then a.startDate else b.startDate,
             if a.endDate < b.endDate then a.endDate else b.endDate)
  }

  /** Overlaps of entry `i` with the later entries up to `j`, as pairs of positions. */
  function PairsOfRow(entrees: seq<Entry>, i: nat, j: nat): seq<(nat, nat)>
    requires i < j <= |entrees|
    decreases j
  {
    if j == i + 1 then []
    else PairsOfRow(entrees, i, j - 1) + (if OverlapAt(entrees, i, j - 1) then [(i, j - 1)] else [])
  }

  function PairsUpTo(entrees: seq<Entry>, n: nat): seq<(nat, nat)>
    requires n <= |entrees|
  {
    if n == 0 then [] else PairsUpTo(entrees, n - 1) + PairsOfRow(entrees, n - 1, |entrees|)
  }

  predicate InRange(entrees: seq<Entry>, pairs: seq<(nat, nat)>) {
    forall k | 0 <= k < |pairs| :: pairs[k].0 < |entrees| && pairs[k].1 < |entrees|
  }

  /** The overlapping pairs of positions, row by row. */
  function OverlapPairs(entrees: seq<Entry>): seq<(nat, nat)> {
    PairsUpTo(entrees, |entrees|)
  }

  ghost predicate Reports(trouves: seq<Conflict>, entrees: seq<Entry>, pairs: seq<(nat, nat)>) {
    && |trouves| == |pairs|
    && InRange(entrees, pairs)
    && forall k | 0 <= k < |pairs| :: trouves[k] == ConflictOf(entrees[pairs[k].0], entrees[pairs[k].1])
  }

  method Conflits(entrees: seq<Entry>) returns (trouves: seq<Conflict>)
    ensures Reports(trouves, entrees, OverlapPairs(entrees))
  {
    hide Chevauche;
    trouves := [];
    for i := 0 to |entrees|
      invariant Reports(trouves, entrees, PairsUpTo(entrees, i))
    {
      for j := i + 1 to |entrees|
        invariant Reports(trouves, entrees, PairsUpTo(entrees, i) + PairsOfRow(entrees, i, j))
      {
        var a, b := entrees[i], entrees[j];
        ghost var pairs := PairsUpTo(entrees, i) + PairsOfRow(entrees, i, j);
        if Chevauche(Dates(a), Dates(b)) {
          trouves := trouves + [ConflictOf(a, b)];
          assert PairsUpTo(entrees, i) + PairsOfRow(entrees, i, j + 1) == pairs + [(i, j)];
        } else {
          assert PairsUpTo(entrees, i) + PairsOfRow(entrees, i, j + 1) == pairs;
        }
      }
    }
  }

  /** Strictly increasing in reading order, hence without repetition. */
  ghost predicate ReadingOrder(pairs: seq<(nat, nat)>) {
    forall k, l | 0 <= k < l < |pairs| ::
      pairs[k].0 < pairs[l].0 || (pairs[k].0 == pairs[l].0 && pairs[k].1 < pairs[l].1)
  }

  lemma {:induction false} RowPairs(entrees: seq<Entry>, i: nat, j: nat)
    requires i < j <= |entrees|
    ensures forall p :: p in PairsOfRow(entrees, i, j) <==> p.0 == i && i < p.1 < j && OverlapAt(entrees, i, p.1)
    ensures ReadingOrder(PairsOfRow(entrees, i, j))
  {
    if j > i + 1 {
      RowPairs(entrees, i, j - 1);
      var before := PairsOfRow(entrees, i, j - 1);
      forall k | 0 <= k < |before| ensures before[k].0 == i && before[k].1 < j - 1 {
        assert before[k] in before;
      }
    }
  }

  lemma {:induction false} RowsOfPairs(entrees: seq<Entry>, n: nat)
    requires n <= |entrees|
    ensures forall p :: p in PairsUpTo(entrees, n) <==> p.0 < n && p.0 < p.1 < |entrees| && OverlapAt(entrees, p.0, p.1)
    ensures ReadingOrder(PairsUpTo(entrees, n))
  {
    if n > 0 {
      RowsOfPairs(entrees, n - 1);
      RowPairs(entrees, n - 1, |entrees|);
      var before, row := PairsUpTo(entrees, n - 1), PairsOfRow(entrees, n - 1, |entrees|);
      forall k | 0 <= k < |before| ensures before[k].0 < n - 1 {
        assert before[k] in before;
      }
      forall k | 0 <= k < |row| ensures row[k].0 == n - 1 {
        assert row[k] in row;
      }
    }
  }

  /** Every pair of overlapping entries is reported, once and in reading order, and no other pair is. */
  lemma EachOverlapOnce(entrees: seq<Entry>)
    ensures forall i: nat, j: nat :: (i, j) in OverlapPairs(entrees) <==> i < j < |entrees| && OverlapAt(entrees, i, j)
    ensures ReadingOrder(OverlapPairs(entrees))
  {
    RowsOfPairs(entrees, |entrees|);
  }

  /** Stated on days: of entries in order, exactly the pairs that share a day are reported. */
  lemma ReportsCommonDays(entrees: seq<Entry>)
    requires forall e | e in entrees :: InOrder(Dates(e))
    ensures forall i: nat, j: nat :: (i, j) in OverlapPairs(entrees) <==>
                                     i < j < |entrees| && CommonDay(Dates(entrees[i]), Dates(entrees[j]))
  {
    hide Chevauche, CommonDay, OverlapPairs;
    EachOverlapOnce(entrees);
    forall i: nat, j: nat | i < j < |entrees|
      ensures OverlapAt(entrees, i, j) <==> CommonDay(Dates(entrees[i]), Dates(entrees[j]))
    {
      ChevaucheIffCommonDay(Dates(entrees[i]), Dates(entrees[j]));
    }
  }

  /**
   * The dates of a conflict are exactly the common instants of its two entries, and there is at
   * least one when both entries end on or after their start.
   */
  lemma ConflictIsIntersection(a: Entry, b: Entry)
    ensures forall t :: ConflictOf(a, b).startDate <= t <= ConflictOf(a, b).endDate <==> Holds(Dates(a), t) && Holds(Dates(b), t)
    ensures Chevauche(Dates(a), Dates(b)) ==>
              (ConflictOf(a, b).startDate <= ConflictOf(a, b).endDate <==>
               a.startDate <= a.endDate && b.startDate <= b.endDate)
  {
  }

  // ---------------------------------------------------------------- groups and their guides

  datatype Group = Group(id: string, packageId: string, guideId: Option<string>)

  datatype Absence = Absence(id: string, guideId: string, startDate: int, endDate: int)

  datatype GuideError = UnknownGroup | AlreadyLeads | DeclaredUnavailable | EndBeforeStart | UnknownAbsence

  ghost predicate DistinctGroups(groups: seq<Group>) {
    forall i, j | 0 <= i < j < |groups| :: groups[i].id != groups[j].id
  }

  /** Does group `g` keep `guideId` busy on some day of `p`? */
  predicate KeepsBusy(g: Group, packages: map<string, Periode>, guideId: string, p: Periode) {
    g.guideId == Some(guideId) && g.packageId in packages && Chevauche(packages[g.packageId], p)
  }

  /** The same guide leads both groups, and their packages share a day. */
  predicate Clash(g: Group, h: Group, packages: map<string, Periode>) {
    && g.guideId.Some? && g.guideId == h.guideId
    && g.packageId in packages && h.packageId in packages
    && Chevauche(packages[g.packageId], packages[h.packageId])
  }

  /** No guide leads two groups whose packages share a day. */
  ghost predicate Exclusive(groups: seq<Group>, packages: map<string, Periode>) {
    forall i, j | 0 <= i < j < |groups| :: !Clash(groups[i], groups[j], packages)
  }

  function IndexOf(groups: seq<Group>, id: string): (r: Option<nat>)
    ensures r.Some? ==> r.value < |groups| && groups[r.value].id == id
    ensures r.None? ==> forall g | g in groups :: g.id != id
  {
    if groups == [] then None
    else if groups[|groups| - 1].id == id then Some(|groups| - 1)
    else IndexOf(groups[..|groups| - 1], id)
  }

  predicate LeadsElsewhere(groups: seq<Group>, packages: map<string, Periode>, guideId: string, i: nat)
    requires i < |groups|
  {
    && groups[i].packageId in packages
    && exists j :: 0 <= j < |groups| && j != i && KeepsBusy(groups[j], packages, guideId, packages[groups[i].packageId])
  }

  predicate AwayDuring(absences: seq<Absence>, packages: map<string, Periode>, guideId: string, g: Group) {
    && g.packageId in packages
    && exists k :: 0 <= k < |absences| && absences[k].guideId == guideId &&
                   Chevauche(Periode(absences[k].startDate, absences[k].endDate), packages[g.packageId])
  }

  function AssignOutcome(groups: seq<Group>, packages: map<string, Periode>, absences: seq<Absence>, groupId: string,
                         guideId: string): Result<(), GuideError>
  {
    match IndexOf(groups, groupId)
    case None => Err(UnknownGroup)
    case Some(i) =>
      if LeadsElsewhere(groups, packages, guideId, i) then Err(AlreadyLeads)
      else if AwayDuring(absences, packages, guideId, groups[i]) then Err(DeclaredUnavailable)
      else Ok(())
  }

  function Without(absences: seq<Absence>, id: string): seq<Absence> {
    if absences == [] then []
    else (if absences[0].id != id then [absences[0]] else []) + Without(absences[1..], id)
  }

  /** Group, package and absence tables. Package dates do not change here; `MoveKeepsExclusiveIff` says what a change does. */
  class GroupsService {
    const packages: map<string, Periode>
    var groups: seq<Group>
    var absences: seq<Absence>

    ghost predicate Valid()
      reads this
    {
      DistinctGroups(groups) && Exclusive(groups, packages)
    }

    constructor (packages: map<string, Periode>)
      ensures Valid() && this.packages == packages && groups == [] && absences == []
    {
      this.packages := packages;
      groups, absences := [], [];
    }

    method CreateGroup(id: string, packageId: string)
      requires Valid() && forall g | g in groups :: g.id != id
      modifies this
      ensures Valid()
      ensures groups == old(groups) + [Group(id, packageId, None)] && absences == old(absences)
    {
      groups := groups + [Group(id, packageId, None)];
    }

    method AssignGuide(groupId: string, guideId: string) returns (r: Result<(), GuideError>)
      requires Valid()
      modifies this
      ensures Valid()
      ensures absences == old(absences)
      ensures r == AssignOutcome(old(groups), packages, old(absences), groupId, guideId)
      ensures r.Ok? ==> var i := IndexOf(old(groups), groupId).value;
                        groups == old(groups)[i := Group(groupId, old(groups)[i].packageId, Some(guideId))]
      ensures r.Err? ==> groups == old(groups)
    {
      match IndexOf(groups, groupId)
      case None => r := Err(UnknownGroup);
      case Some(i) =>
        if LeadsElsewhere(groups, packages, guideId, i) {
          return Err(AlreadyLeads);
        }
        if AwayDuring(absences, packages, guideId, groups[i]) {
          return Err(DeclaredUnavailable);
        }
        AssignmentStaysExclusive(groups, packages, i, guideId);
        groups := groups[i := groups[i].(guideId := Some(guideId))];
        r := Ok(());
    }

    method AddUnavailability(id: string, guideId: string, startDate: int, endDate: int) returns (r: Result<(), GuideError>)
      requires Valid()
      modifies this
      ensures Valid() && groups == old(groups)
      ensures r == if endDate < startDate then Err(EndBeforeStart) else Ok(())
      ensures absences == old(absences) + (if r.Ok? then [Absence(id, guideId, startDate, endDate)] else [])
    {
      if endDate < startDate {
        return Err(EndBeforeStart);
      }
      absences := absences + [Absence(id, guideId, startDate, endDate)];
      r := Ok(());
    }

    method DeleteUnavailability(id: string) returns (r: Result<(), GuideError>)
      requires Valid()
      modifies this
      ensures Valid() && groups == old(groups)
      ensures absences == Without(old(absences), id)
      ensures r == if exists a :: a in old(absences) && a.id == id then Ok(()) else Err(UnknownAbsence)
    {
      r := if exists a :: a in absences && a.id == id then Ok(()) else Err(UnknownAbsence);
      absences := Without(absences, id);
    }

    /** The schedule of one guide over a window, with its conflicts. */
    method Planning(guideId: string, debut: int, fin: int) returns (entries: seq<Entry>, conflicts: seq<Conflict>)
      requires Valid()
      ensures entries == Schedule(groups, absences, packages, guideId, Periode(debut, fin))
      ensures Reports(conflicts, entries, OverlapPairs(entries))
      ensures forall i: nat, j: nat | (i, j) in OverlapPairs(entries) ::
                i < j < |entries| && (entries[i].kind.UnavailabilityEntry? || entries[j].kind.UnavailabilityEntry?)
    {
      entries := Schedule(groups, absences, packages, guideId, Periode(debut, fin));
      conflicts := Conflits(entries);
      NoGroupAgainstGroup(groups, absences, packages, guideId, Periode(debut, fin));
    }
  }

  /** Assigning a guide who leads nothing else on these dates keeps every guide on one group at a time. */
  lemma AssignmentStaysExclusive(groups: seq<Group>, packages: map<string, Periode>, i: nat, guideId: string)
    requires i < |groups| && Exclusive(groups, packages) && !LeadsElsewhere(groups, packages, guideId, i)
    ensures Exclusive(groups[i := groups[i].(guideId := Some(guideId))], packages)
  {
    var after := groups[i := groups[i].(guideId := Some(guideId))];
    forall k, j | 0 <= k < j < |after| ensures !Clash(after[k], after[j], packages) {
      if k != i && j != i {
        assert !Clash(groups[k], groups[j], packages);
      } else {
        var other := if k == i then groups[j] else groups[k];
        assert groups[i].packageId in packages ==> !KeepsBusy(other, packages, guideId, packages[groups[i].packageId]);
      }
    }
  }

  /**
   * Moving the dates of a package, which checks nothing, keeps guides on one group at a time if and only if
   * the guard of `assignGuide` would pass on the new dates for every guided group of that package.
   */
  lemma MoveKeepsExclusiveIff(groups: seq<Group>, packages: map<string, Periode>, packageId: string, dates: Periode)
    requires Exclusive(groups, packages)
    ensures Exclusive(groups, packages[packageId := dates]) <==>
            forall i | 0 <= i < |groups| && groups[i].packageId == packageId && groups[i].guideId.Some? ::
              !LeadsElsewhere(groups, packages[packageId := dates], groups[i].guideId.value, i)
  {
    var moved := packages[packageId := dates];
    if Exclusive(groups, moved) {
      forall i, j | 0 <= i < |groups| && 0 <= j < |groups| && j != i && groups[i].packageId == packageId && groups[i].guideId.Some?
        ensures !KeepsBusy(groups[j], moved, groups[i].guideId.value, moved[packageId])
      {
        assert !Clash(groups[if i < j then i else j], groups[if i < j then j else i], moved);
      }
    } else {
      var i, j :| 0 <= i < j < |groups| && Clash(groups[i], groups[j], moved);
      assert !Clash(groups[i], groups[j], packages);
      if groups[i].packageId == packageId {
        assert KeepsBusy(groups[j], moved, groups[i].guideId.value, moved[packageId]);
      } else {
        assert groups[j].packageId == packageId;
        assert KeepsBusy(groups[i], moved, groups[j].guideId.value, moved[packageId]);
      }
    }
  }

  /** A guide led one group after the other; the second package is brought forward over the first. */
  lemma MoveCanClash()
    ensures var groups := [Group("g", "p", Some("guide")), Group("h", "q", Some("guide"))];
            var packages := map["p" := Periode(1, 9), "q" := Periode(10, 20)];
            Exclusive(groups, packages) && !Exclusive(groups, packages["q" := Periode(9, 19)])
  {
    var groups := [Group("g", "p", Some("guide")), Group("h", "q", Some("guide"))];
    var packages := map["p" := Periode(1, 9), "q" := Periode(10, 20)];
    assert Clash(groups[0], groups[1], packages["q" := Periode(9, 19)]);
  }

  // ---------------------------------------------------------------- stated on days

  ghost predicate PackagesInOrder(packages: map<string, Periode>) {
    forall p | p in packages :: InOrder(packages[p])
  }

  ghost predicate AbsencesInOrder(absences: seq<Absence>) {
    forall a | a in absences :: InOrder(Periode(a.startDate, a.endDate))
  }

  /** The guide leads another group, on some day of the `i`-th one. */
  ghost predicate LeadsSameDay(groups: seq<Group>, packages: map<string, Periode>, guideId: string, i: nat)
    requires i < |groups|
  {
    exists j :: 0 <= j < |groups| && j != i && groups[j].guideId == Some(guideId) &&
                groups[i].packageId in packages && groups[j].packageId in packages &&
                CommonDay(packages[groups[i].packageId], packages[groups[j].packageId])
  }

  /** The guide is away on some day of the `i`-th group. */
  ghost predicate AwaySameDay(absences: seq<Absence>, groups: seq<Group>, packages: map<string, Periode>, guideId: string,
                              i: nat)
    requires i < |groups|
  {
    exists a :: a in absences && a.guideId == guideId && groups[i].packageId in packages &&
                CommonDay(Periode(a.startDate, a.endDate), packages[groups[i].packageId])
  }

  lemma LeadsElsewhereIsSameDay(groups: seq<Group>, packages: map<string, Periode>, guideId: string, i: nat)
    requires i < |groups| && PackagesInOrder(packages)
    ensures LeadsElsewhere(groups, packages, guideId, i) <==> LeadsSameDay(groups, packages, guideId, i)
  {
    hide Chevauche, CommonDay, InOrder;
    forall j | 0 <= j < |groups| && groups[i].packageId in packages && groups[j].packageId in packages
      ensures Chevauche(packages[groups[j].packageId], packages[groups[i].packageId]) <==>
              CommonDay(packages[groups[i].packageId], packages[groups[j].packageId])
    {
      ChevaucheIffCommonDay(packages[groups[j].packageId], packages[groups[i].packageId]);
      CommonDaySymmetric(packages[groups[j].packageId], packages[groups[i].packageId]);
    }
    if LeadsElsewhere(groups, packages, guideId, i) {
      var j :| 0 <= j < |groups| && j != i && KeepsBusy(groups[j], packages, guideId, packages[groups[i].packageId]);
      assert CommonDay(packages[groups[i].packageId], packages[groups[j].packageId]);
    }
    if LeadsSameDay(groups, packages, guideId, i) {
      var j :| 0 <= j < |groups| && j != i && groups[j].guideId == Some(guideId) &&
               groups[i].packageId in packages && groups[j].packageId in packages &&
               CommonDay(packages[groups[i].packageId], packages[groups[j].packageId]);
      assert KeepsBusy(groups[j], packages, guideId, packages[groups[i].packageId]);
    }
  }

  lemma CommonDaySymmetric(a: Periode, b: Periode)
    ensures CommonDay(a, b) <==> CommonDay(b, a)
  {
  }

  lemma AwayDuringIsSameDay(absences: seq<Absence>, groups: seq<Group>, packages: map<string, Periode>, guideId: string,
                            i: nat)
    requires i < |groups| && PackagesInOrder(packages) && AbsencesInOrder(absences)
    ensures AwayDuring(absences, packages, guideId, groups[i]) <==> AwaySameDay(absences, groups, packages, guideId, i)
  {
    hide Chevauche, CommonDay, InOrder;
    if groups[i].packageId in packages {
      forall k | 0 <= k < |absences|
        ensures Chevauche(Periode(absences[k].startDate, absences[k].endDate), packages[groups[i].packageId]) <==>
                CommonDay(Periode(absences[k].startDate, absences[k].endDate), packages[groups[i].packageId])
      {
        ChevaucheIffCommonDay(Periode(absences[k].startDate, absences[k].endDate), packages[groups[i].packageId]);
      }
    }
  }

  /**
   * On packages and absences in order: a guide is accepted for a group exactly when he leads no other group and
   * is declared away on none of its days; which of the two is in the way decides the refusal.
   */
  lemma AssignAcceptedIffFree(groups: seq<Group>, packages: map<string, Periode>, absences: seq<Absence>, i: nat,
                              guideId: string)
    requires i < |groups| && DistinctGroups(groups) && PackagesInOrder(packages) && AbsencesInOrder(absences)
    ensures var r := AssignOutcome(groups, packages, absences, groups[i].id, guideId);
            && (r.Ok? <==> !LeadsSameDay(groups, packages, guideId, i) && !AwaySameDay(absences, groups, packages, guideId, i))
            && (r == Err(AlreadyLeads) <==> LeadsSameDay(groups, packages, guideId, i))
  {
    hide LeadsElsewhere, AwayDuring, LeadsSameDay, AwaySameDay;
    assert IndexOf(groups, groups[i].id) == Some(i) by {
      var found := IndexOf(groups, groups[i].id);
      assert groups[i] in groups;
    }
    LeadsElsewhereIsSameDay(groups, packages, guideId, i);
    AwayDuringIsSameDay(absences, groups, packages, guideId, i);
  }

  /** No guide leads two groups on the same day. */
  ghost predicate OneGroupADay(groups: seq<Group>, packages: map<string, Periode>) {
    forall i, j, t | 0 <= i < j < |groups| && groups[i].guideId.Some? && groups[i].guideId == groups[j].guideId &&
                     groups[i].packageId in packages && groups[j].packageId in packages ::
      !(Holds(packages[groups[i].packageId], t) && Holds(packages[groups[j].packageId], t))
  }

  lemma ExclusiveIsOneGroupADay(groups: seq<Group>, packages: map<string, Periode>)
    requires PackagesInOrder(packages)
    ensures Exclusive(groups, packages) <==> OneGroupADay(groups, packages)
  {
    hide Chevauche, Holds, InOrder;
    forall i, j | 0 <= i < j < |groups| && groups[i].packageId in packages && groups[j].packageId in packages
      ensures Chevauche(packages[groups[i].packageId], packages[groups[j].packageId]) <==>
              CommonDay(packages[groups[i].packageId], packages[groups[j].packageId])
    {
      ChevaucheIffCommonDay(packages[groups[i].packageId], packages[groups[j].packageId]);
    }
    if Exclusive(groups, packages) {
      forall i, j, t | 0 <= i < j < |groups| && groups[i].guideId.Some? && groups[i].guideId == groups[j].guideId &&
                       groups[i].packageId in packages && groups[j].packageId in packages
        ensures !(Holds(packages[groups[i].packageId], t) && Holds(packages[groups[j].packageId], t))
      {
        assert !Clash(groups[i], groups[j], packages);
      }
    }
    if OneGroupADay(groups, packages) {
      forall i, j | 0 <= i < j < |groups| ensures !Clash(groups[i], groups[j], packages) {
        if groups[i].guideId.Some? && groups[i].guideId == groups[j].guideId &&
           groups[i].packageId in packages && groups[j].packageId in packages {
          assert !CommonDay(packages[groups[i].packageId], packages[groups[j].packageId]);
        }
      }
    }
  }

  // ---------------------------------------------------------------- runs with moved dates

  datatype State = State(packages: map<string, Periode>, groups: seq<Group>, absences: seq<Absence>)

  datatype Step =
    | Publish(packageId: string, dates: Periode)
    | Move(packageId: string, dates: Periode)
    | NewGroup(id: string, packageId: string)
    | Assign(groupId: string, guideId: string)
    | Declare(absence: Absence)
    | Withdraw(id: string)

  const EMPTY: State := State(map[], [], [])

  /** A refused request changes nothing. The dates of packages are taken as given, in any order. */
  function Next(s: State, step: Step): State {
    match step
    case Publish(p, dates) => if p in s.packages then s else s.(packages := s.packages[p := dates])
    case Move(p, dates) => if p in s.packages then s.(packages := s.packages[p := dates]) else s
    case NewGroup(id, p) =>
      if p !in s.packages || IndexOf(s.groups, id).Some? then s else s.(groups := s.groups + [Group(id, p, None)])
    case Assign(groupId, guideId) =>
      if AssignOutcome(s.groups, s.packages, s.absences, groupId, guideId).Err? then s
      else
        var i := IndexOf(s.groups, groupId).value;
        s.(groups := s.groups[i := s.groups[i].(guideId := Some(guideId))])
    case Declare(a) => if a.endDate < a.startDate then s else s.(absences := s.absences + [a])
    case Withdraw(id) => s.(absences := Without(s.absences, id))
  }

  function Run(steps: seq<Step>): State {
    if steps == [] then EMPTY else Next(Run(steps[..|steps| - 1]), steps[|steps| - 1])
  }

  /** Every group is of a stored package. */
  ghost predicate Linked(s: State) {
    forall i | 0 <= i < |s.groups| :: s.groups[i].packageId in s.packages
  }

  /** The guard of `assignGuide`, asked again on the new dates for every guided group of a moved package. */
  predicate MoveSafe(s: State, step: Step) {
    step.Move? && step.packageId in s.packages ==>
      forall i | 0 <= i < |s.groups| && s.groups[i].packageId == step.packageId && s.groups[i].guideId.Some? ::
        !LeadsElsewhere(s.groups, s.packages[step.packageId := step.dates], s.groups[i].guideId.value, i)
  }

  lemma StepKeepsLinks(s: State, step: Step)
    requires Linked(s)
    ensures Linked(Next(s, step))
  {
  }

  /** A request keeps guides on one group at a time if and only if it is not an unsafe move. */
  lemma StepKeepsExclusive(s: State, step: Step)
    requires Linked(s) && Exclusive(s.groups, s.packages)
    ensures Exclusive(Next(s, step).groups, Next(s, step).packages) <==> MoveSafe(s, step)
  {
    hide LeadsElsewhere, AwayDuring;
    match step
    case Publish(p, dates) =>
      var t := Next(s, step);
      forall i, j | 0 <= i < j < |s.groups| ensures !Clash(t.groups[i], t.groups[j], t.packages) {
        assert !Clash(s.groups[i], s.groups[j], s.packages);
      }
    case Move(p, dates) => MoveKeepsExclusiveIff(s.groups, s.packages, p, dates);
    case NewGroup(id, p) =>
      var t := Next(s, step);
      forall i, j | 0 <= i < j < |t.groups| ensures !Clash(t.groups[i], t.groups[j], t.packages) {
        if j < |s.groups| {
          assert !Clash(s.groups[i], s.groups[j], s.packages);
        }
      }
    case Assign(groupId, guideId) =>
      if AssignOutcome(s.groups, s.packages, s.absences, groupId, guideId).Ok? {
        AssignmentStaysExclusive(s.groups, s.packages, IndexOf(s.groups, groupId).value, guideId);
      }
    case _ =>
  }

  ghost predicate ExclusiveAllAlong(steps: seq<Step>) {
    Exclusive(Run(steps).groups, Run(steps).packages) && (steps == [] || ExclusiveAllAlong(steps[..|steps| - 1]))
  }

  predicate MovesSafe(steps: seq<Step>) {
    steps == [] || (MovesSafe(steps[..|steps| - 1]) && MoveSafe(Run(steps[..|steps| - 1]), steps[|steps| - 1]))
  }

  lemma {:induction false} RunIsLinked(steps: seq<Step>)
    ensures Linked(Run(steps))
  {
    if steps != [] {
      RunIsLinked(steps[..|steps| - 1]);
      StepKeepsLinks(Run(steps[..|steps| - 1]), steps[|steps| - 1]);
    }
  }

  /** Over any run of assignments and moves, guides lead one group at a time all along if and only if every move is safe. */
  lemma {:induction false} ExclusiveIffMovesSafe(steps: seq<Step>)
    ensures ExclusiveAllAlong(steps) <==> MovesSafe(steps)
  {
    if steps != [] {
      var before := steps[..|steps| - 1];
      ExclusiveIffMovesSafe(before);
      RunIsLinked(before);
      hide Next, Exclusive, MoveSafe;
      if ExclusiveAllAlong(before) {
        StepKeepsExclusive(Run(before), steps[|steps| - 1]);
      }
    }
  }

  /** Package dates are given in order. */
  ghost predicate DatesInOrder(steps: seq<Step>) {
    forall k | 0 <= k < |steps| :: steps[k].Publish? || steps[k].Move? ==> InOrder(steps[k].dates)
  }

  lemma {:induction false} RunPackagesInOrder(steps: seq<Step>)
    requires DatesInOrder(steps)
    ensures PackagesInOrder(Run(steps).packages)
  {
    if steps != [] {
      hide InOrder;
      RunPackagesInOrder(steps[..|steps| - 1]);
    }
  }

  ghost predicate OneGroupADayAllAlong(steps: seq<Step>) {
    OneGroupADay(Run(steps).groups, Run(steps).packages) && (steps == [] || OneGroupADayAllAlong(steps[..|steps| - 1]))
  }

  /** A date move keeps every guided group of its package free of the days of its guide's other groups. */
  ghost predicate MoveLeavesGuidesFree(s: State, step: Step) {
    step.Move? && step.packageId in s.packages ==>
      forall i | 0 <= i < |s.groups| && s.groups[i].packageId == step.packageId && s.groups[i].guideId.Some? ::
        !LeadsSameDay(s.groups, s.packages[step.packageId := step.dates], s.groups[i].guideId.value, i)
  }

  ghost predicate MovesLeaveGuidesFree(steps: seq<Step>) {
    steps == [] ||
    (MovesLeaveGuidesFree(steps[..|steps| - 1]) && MoveLeavesGuidesFree(Run(steps[..|steps| - 1]), steps[|steps| - 1]))
  }

  lemma MoveSafeIsFree(s: State, step: Step)
    requires PackagesInOrder(s.packages) && (step.Move? ==> InOrder(step.dates))
    ensures MoveSafe(s, step) <==> MoveLeavesGuidesFree(s, step)
  {
    hide LeadsElsewhere, LeadsSameDay, InOrder;
    if step.Move? && step.packageId in s.packages {
      var moved := s.packages[step.packageId := step.dates];
      forall i | 0 <= i < |s.groups| && s.groups[i].guideId.Some?
        ensures LeadsElsewhere(s.groups, moved, s.groups[i].guideId.value, i) <==>
                LeadsSameDay(s.groups, moved, s.groups[i].guideId.value, i)
      {
        LeadsElsewhereIsSameDay(s.groups, moved, s.groups[i].guideId.value, i);
      }
    }
  }

  /**
   * Over any run with dates in order, no guide is on two groups on the same day all along if and only if every
   * move of dates leaves the guides of its package free.
   */
  lemma {:induction false} OneGroupADayIffMovesLeaveFree(steps: seq<Step>)
    requires DatesInOrder(steps)
    ensures OneGroupADayAllAlong(steps) <==> MovesLeaveGuidesFree(steps)
  {
    RunPackagesInOrder(steps);
    hide Run, OneGroupADay, MoveLeavesGuidesFree, Exclusive, MoveSafe, PackagesInOrder, InOrder, Next;
    if steps == [] {
      ExclusiveIffMovesSafe(steps);
      ExclusiveIsOneGroupADay(Run(steps).groups, Run(steps).packages);
    } else {
      var before, step := steps[..|steps| - 1], steps[|steps| - 1];
      OneGroupADayIffMovesLeaveFree(before);
      RunPackagesInOrder(before);
      RunIsLinked(before);
      MoveSafeIsFree(Run(before), step);
      ExclusiveIsOneGroupADay(Run(before).groups, Run(before).packages);
      ExclusiveIsOneGroupADay(Run(steps).groups, Run(steps).packages);
      if OneGroupADay(Run(before).groups, Run(before).packages) {
        LastStep(steps);
        StepKeepsExclusive(Run(before), step);
      }
    }
  }

  lemma LastStep(steps: seq<Step>)
    requires steps != []
    ensures Run(steps) == Next(Run(steps[..|steps| - 1]), steps[|steps| - 1])
  {
  }

  // ---------------------------------------------------------------- schedules

  function StartOf(e: Entry): int {
    e.startDate
  }

  function GroupEntries(groups: seq<Group>, packages: map<string, Periode>, guideId: string, window: Periode): seq<Entry> {
    if groups == [] then []
    else
      var g := groups[|groups| - 1];
      GroupEntries(groups[..|groups| - 1], packages, guideId, window) +
      (if KeepsBusy(g, packages, guideId, window)
       then [Entry(GroupEntry, g.id, packages[g.packageId].startDate, packages[g.packageId].endDate)] else [])
  }

  function AbsenceEntries(absences: seq<Absence>, guideId: string, window: Periode): seq<Entry> {
    if absences == [] then []
    else
      var a := absences[|absences| - 1];
      AbsenceEntries(absences[..|absences| - 1], guideId, window) +
      (if a.guideId == guideId && Chevauche(Periode(a.startDate, a.endDate), window)
       then [Entry(UnavailabilityEntry, a.id, a.startDate, a.endDate)] else [])
  }

  function Schedule(groups: seq<Group>, absences: seq<Absence>, packages: map<string, Periode>, guideId: string,
                    window: Periode): seq<Entry> {
    StableSort(GroupEntries(groups, packages, guideId, window) + AbsenceEntries(absences, guideId, window), StartOf)
  }

  /** The absences kept are all the others, each as often and in the same order. */
  lemma {:induction false} WithoutKeepsOthers(absences: seq<Absence>, id: string)
    ensures forall a :: multiset(Without(absences, id))[a] == if a.id == id then 0 else multiset(absences)[a]
    ensures (forall a | a in absences :: a.id != id) ==> Without(absences, id) == absences
  {
    if absences != [] {
      assert absences == [absences[0]] + absences[1..];
      WithoutKeepsOthers(absences[1..], id);
    }
  }

  lemma {:induction false} GroupEntryIff(groups: seq<Group>, packages: map<string, Periode>, guideId: string,
                                         window: Periode, e: Entry)
    requires PackagesInOrder(packages) && InOrder(window)
    ensures e in GroupEntries(groups, packages, guideId, window) <==>
            exists g :: g in groups && g.guideId == Some(guideId) && g.packageId in packages &&
                        e == Entry(GroupEntry, g.id, packages[g.packageId].startDate, packages[g.packageId].endDate) &&
                        CommonDay(packages[g.packageId], window)
  {
    hide Chevauche, CommonDay, InOrder;
    if groups != [] {
      var init, g := groups[..|groups| - 1], groups[|groups| - 1];
      assert groups == init + [g];
      GroupEntryIff(init, packages, guideId, window, e);
      if g.packageId in packages {
        ChevaucheIffCommonDay(packages[g.packageId], window);
      }
    }
  }

  lemma {:induction false} AbsenceEntryIff(absences: seq<Absence>, guideId: string, window: Periode, e: Entry)
    requires AbsencesInOrder(absences) && InOrder(window)
    ensures e in AbsenceEntries(absences, guideId, window) <==>
            exists a :: a in absences && a.guideId == guideId &&
                        e == Entry(UnavailabilityEntry, a.id, a.startDate, a.endDate) &&
                        CommonDay(Periode(a.startDate, a.endDate), window)
  {
    hide Chevauche, CommonDay, InOrder;
    if absences != [] {
      var init, a := absences[..|absences| - 1], absences[|absences| - 1];
      assert absences == init + [a];
      AbsenceEntryIff(init, guideId, window, e);
      ChevaucheIffCommonDay(Periode(a.startDate, a.endDate), window);
    }
  }

  /**
   * A schedule lists, by start, exactly the groups the guide leads and the absences he declared that share a day
   * with the window.
   */
  lemma ScheduleLists(groups: seq<Group>, absences: seq<Absence>, packages: map<string, Periode>, guideId: string,
                      window: Periode, e: Entry)
    requires PackagesInOrder(packages) && AbsencesInOrder(absences) && InOrder(window)
    ensures forall i, j | 0 <= i < j < |Schedule(groups, absences, packages, guideId, window)| ::
              Schedule(groups, absences, packages, guideId, window)[i].startDate <=
              Schedule(groups, absences, packages, guideId, window)[j].startDate
    ensures e in Schedule(groups, absences, packages, guideId, window) <==>
            (exists g :: g in groups && g.guideId == Some(guideId) && g.packageId in packages &&
                         e == Entry(GroupEntry, g.id, packages[g.packageId].startDate, packages[g.packageId].endDate) &&
                         CommonDay(packages[g.packageId], window)) ||
            (exists a :: a in absences && a.guideId == guideId &&
                         e == Entry(UnavailabilityEntry, a.id, a.startDate, a.endDate) &&
                         CommonDay(Periode(a.startDate, a.endDate), window))
  {
    hide StableSort, CommonDay, InOrder;
    var entries := GroupEntries(groups, packages, guideId, window) + AbsenceEntries(absences, guideId, window);
    SortedPermutation(entries, StartOf);
    SameElements(entries, StartOf);
    GroupEntryIff(groups, packages, guideId, window, e);
    AbsenceEntryIff(absences, guideId, window, e);
    hide GroupEntries, AbsenceEntries;
  }

  /** The group an entry was made from. */
  lemma {:induction false} EntryOfGroup(groups: seq<Group>, packages: map<string, Periode>, guideId: string,
                                        window: Periode, e: Entry) returns (i: nat)
    requires e in GroupEntries(groups, packages, guideId, window)
    ensures i < |groups| && groups[i].id == e.id && groups[i].guideId == Some(guideId)
    ensures groups[i].packageId in packages && packages[groups[i].packageId] == Dates(e) && e.kind.GroupEntry?
  {
    if e in GroupEntries(groups[..|groups| - 1], packages, guideId, window) {
      i := EntryOfGroup(groups[..|groups| - 1], packages, guideId, window, e);
    } else {
      i := |groups| - 1;
    }
  }

  lemma {:induction false} GroupEntriesAreDistinct(groups: seq<Group>, packages: map<string, Periode>, guideId: string,
                                                   window: Periode)
    requires DistinctGroups(groups)
    ensures forall e :: multiset(GroupEntries(groups, packages, guideId, window))[e] <= 1
  {
    if groups != [] {
      var init, g := groups[..|groups| - 1], groups[|groups| - 1];
      GroupEntriesAreDistinct(init, packages, guideId, window);
      var before := GroupEntries(init, packages, guideId, window);
      forall e | e in before ensures e.id != g.id {
        var i := EntryOfGroup(init, packages, guideId, window, e);
        assert groups[i].id != groups[|groups| - 1].id;
      }
    }
  }

  lemma {:induction false} AbsenceEntriesAreAbsences(absences: seq<Absence>, guideId: string, window: Periode)
    ensures forall e | e in AbsenceEntries(absences, guideId, window) :: e.kind.UnavailabilityEntry?
  {
    if absences != [] {
      AbsenceEntriesAreAbsences(absences[..|absences| - 1], guideId, window);
    }
  }

  /** A group entry of a schedule occurs once and comes from a group of the guide. */
  lemma GroupEntryInSchedule(groups: seq<Group>, absences: seq<Absence>, packages: map<string, Periode>,
                             guideId: string, window: Periode, e: Entry) returns (i: nat)
    requires DistinctGroups(groups)
    requires e in Schedule(groups, absences, packages, guideId, window) && e.kind.GroupEntry?
    ensures multiset(Schedule(groups, absences, packages, guideId, window))[e] <= 1
    ensures i < |groups| && groups[i].id == e.id && groups[i].guideId == Some(guideId)
    ensures groups[i].packageId in packages && packages[groups[i].packageId] == Dates(e)
  {
    var ours, away := GroupEntries(groups, packages, guideId, window), AbsenceEntries(absences, guideId, window);
    SortedPermutation(ours + away, StartOf);
    GroupEntriesAreDistinct(groups, packages, guideId, window);
    AbsenceEntriesAreAbsences(absences, guideId, window);
    assert e !in away;
    assert multiset(ours + away)[e] == multiset(ours)[e] + multiset(away)[e];
    assert e in multiset(Schedule(groups, absences, packages, guideId, window));
    assert e in ours;
    i := EntryOfGroup(groups, packages, guideId, window, e);
  }

  /** While assignments are exclusive, no schedule ever reports a group against a group. */
  lemma NoGroupAgainstGroup(groups: seq<Group>, absences: seq<Absence>, packages: map<string, Periode>,
                            guideId: string, window: Periode)
    requires DistinctGroups(groups) && Exclusive(groups, packages)
    ensures var entries := Schedule(groups, absences, packages, guideId, window);
            forall i: nat, j: nat | (i, j) in OverlapPairs(entries) ::
              i < j < |entries| && (entries[i].kind.UnavailabilityEntry? || entries[j].kind.UnavailabilityEntry?)
  {
    hide Schedule, PairsUpTo;
    var entries := Schedule(groups, absences, packages, guideId, window);
    EachOverlapOnce(entries);
    forall i: nat, j: nat | i < j < |entries| && entries[i].kind.GroupEntry? && entries[j].kind.GroupEntry?
      ensures !OverlapAt(entries, i, j)
    {
      var a := GroupEntryInSchedule(groups, absences, packages, guideId, window, entries[i]);
      var b := GroupEntryInSchedule(groups, absences, packages, guideId, window, entries[j]);
      CountsGiveDistinct(entries, i, j);
      if a < b {
        assert !Clash(groups[a], groups[b], packages);
      } else {
        assert !Clash(groups[b], groups[a], packages);
      }
    }
  }

  // ---------------------------------------------------------------- guides of a package

  /** The guide column of the groups of a package, as the capacity simulator reads it. */
  function GuideColumn(groups: seq<Group>, packageId: string): seq<Option<string>> {
    if groups == [] then []
    else GuideColumn(groups[..|groups| - 1], packageId) +
         (if groups[|groups| - 1].packageId == packageId then [groups[|groups| - 1].guideId] else [])
  }

  function GuidedGroups(groups: seq<Group>, packageId: string): nat {
    if groups == [] then 0
    else GuidedGroups(groups[..|groups| - 1], packageId) +
         (if groups[|groups| - 1].packageId == packageId && groups[|groups| - 1].guideId.Some? then 1 else 0)
  }

  lemma {:induction false} ColumnGuide(groups: seq<Group>, packageId: string, guide: string) returns (i: nat)
    requires guide in Capacity.GuideSet(GuideColumn(groups, packageId))
    ensures i < |groups| && groups[i].packageId == packageId && groups[i].guideId == Some(guide)
  {
    var g := groups[|groups| - 1];
    if g.packageId == packageId && g.guideId == Some(guide) {
      i := |groups| - 1;
    } else {
      i := ColumnGuide(groups[..|groups| - 1], packageId, guide);
    }
  }

  lemma ExclusiveInit(groups: seq<Group>, packages: map<string, Periode>)
    requires groups != [] && Exclusive(groups, packages)
    ensures Exclusive(groups[..|groups| - 1], packages)
  {
  }

  /** The number of distinct guides of a package is the number of its groups that have a guide. */
  lemma {:induction false} DistinctGuidesAreGuidedGroups(groups: seq<Group>, packages: map<string, Periode>, packageId: string)
    requires Exclusive(groups, packages)
    requires packageId in packages && packages[packageId].startDate <= packages[packageId].endDate
    ensures |Capacity.GuideSet(GuideColumn(groups, packageId))| == GuidedGroups(groups, packageId)
  {
    if groups != [] {
      var init, g := groups[..|groups| - 1], groups[|groups| - 1];
      ExclusiveInit(groups, packages);
      DistinctGuidesAreGuidedGroups(init, packages, packageId);
      var before := Capacity.GuideSet(GuideColumn(init, packageId));
      var after := Capacity.GuideSet(GuideColumn(groups, packageId));
      if g.packageId == packageId && g.guideId.Some? {
        assert after == before + {g.guideId.value};
        forall guide | guide in before ensures guide != g.guideId.value {
          var i := ColumnGuide(init, packageId, guide);
          assert !Clash(groups[i], groups[|groups| - 1], packages);
        }
      } else {
        assert after == before;
      }
    } else {
      assert Capacity.GuideSet(GuideColumn(groups, packageId)) == {};
    }
  }

  /**
   * The count is right for every exclusive assignment if and only if the package ends on or after its start:
   * one that ends before shares no day with itself, so the guard lets one guide lead several of its groups.
   */
  lemma DistinctGuidesIffOrdered(packages: map<string, Periode>, packageId: string)
    requires packageId in packages
    ensures (forall groups | DistinctGroups(groups) && Exclusive(groups, packages) ::
               |Capacity.GuideSet(GuideColumn(groups, packageId))| == GuidedGroups(groups, packageId)) <==>
            packages[packageId].startDate <= packages[packageId].endDate
  {
    if packages[packageId].startDate <= packages[packageId].endDate {
      forall groups | DistinctGroups(groups) && Exclusive(groups, packages)
        ensures |Capacity.GuideSet(GuideColumn(groups, packageId))| == GuidedGroups(groups, packageId)
      {
        DistinctGuidesAreGuidedGroups(groups, packages, packageId);
      }
    } else {
      var groups := [Group("g", packageId, Some("guide")), Group("h", packageId, Some("guide"))];
      OneGuideTwoGroups(groups, packageId, "guide");
      assert DistinctGroups(groups) && Exclusive(groups, packages);
    }
  }

  lemma OneGuideTwoGroups(groups: seq<Group>, packageId: string, guide: string)
    requires |groups| == 2 && groups[0].packageId == groups[1].packageId == packageId
    requires groups[0].guideId == groups[1].guideId == Some(guide)
    ensures Capacity.GuideSet(GuideColumn(groups, packageId)) == {guide} && GuidedGroups(groups, packageId) == 2
  {
    var one := groups[..1];
    assert one[..0] == [] && GuideColumn(one[..0], packageId) == [] && GuidedGroups(one[..0], packageId) == 0;
    assert GuideColumn(one, packageId) == [Some(guide)] && GuidedGroups(one, packageId) == 1;
    assert GuideColumn(groups, packageId) == [Some(guide), Some(guide)];
  }

  /** In every run whose moves are safe the count is right for each package that ends on or after its start. */
  lemma DistinctGuidesOverRuns(steps: seq<Step>, packageId: string)
    requires MovesSafe(steps) && packageId in Run(steps).packages
    requires Run(steps).packages[packageId].startDate <= Run(steps).packages[packageId].endDate
    ensures |Capacity.GuideSet(GuideColumn(Run(steps).groups, packageId))| == GuidedGroups(Run(steps).groups, packageId)
  {
    ExclusiveIffMovesSafe(steps);
    DistinctGuidesAreGuidedGroups(Run(steps).groups, Run(steps).packages, packageId);
  }

  /** A package published with its dates inverted, and one guide accepted for both of its groups. */
  const INVERTED_PACKAGE: seq<Step> :=
    [Publish("p", Periode(10, 1)), NewGroup("g", "p"), NewGroup("h", "p"), Assign("g", "guide"), Assign("h", "guide")]

  lemma RunStep(steps: seq<Step>, k: nat, s: State)
    requires k < |steps| && Run(steps[..k]) == s
    ensures Run(steps[..k + 1]) == Next(s, steps[k])
  {
    assert steps[..k + 1][..k] == steps[..k];
  }

  lemma TwoGroups(g: Group, h: Group)
    requires g.id == "g" && h.id == "h"
    ensures IndexOf([g], "g") == Some(0) && IndexOf([g], "h") == None
    ensures IndexOf([g, h], "g") == Some(0) && IndexOf([g, h], "h") == Some(1)
  {
    assert [g, h][..1] == [g] && [g][..0] == [];
  }

  /** On a package that ends before it starts, no other group of it keeps a guide busy. */
  lemma AssignInverted(s: State, i: nat, guideId: string)
    requires "p" in s.packages && s.packages["p"] == Periode(10, 1) && s.absences == []
    requires i < |s.groups| && IndexOf(s.groups, s.groups[i].id) == Some(i)
    requires forall j | 0 <= j < |s.groups| :: s.groups[j].packageId == "p"
    ensures Next(s, Assign(s.groups[i].id, guideId)) == s.(groups := s.groups[i := s.groups[i].(guideId := Some(guideId))])
  {
    hide IndexOf;
    assert !LeadsElsewhere(s.groups, s.packages, guideId, i);
    assert !AwayDuring(s.absences, s.packages, guideId, s.groups[i]);
  }

  lemma GroupAdded(s: State, id: string, packageId: string)
    requires packageId in s.packages && IndexOf(s.groups, id).None?
    ensures Next(s, NewGroup(id, packageId)) == s.(groups := s.groups + [Group(id, packageId, None)])
  {
    hide IndexOf, AssignOutcome, Without;
  }

  lemma FirstPublished(packageId: string, dates: Periode)
    ensures Run([]) == EMPTY && Next(EMPTY, Publish(packageId, dates)) == State(map[packageId := dates], [], [])
  {
    hide IndexOf, AssignOutcome, Without;
  }

  lemma TwoGroupsPublished()
    ensures Run(INVERTED_PACKAGE[..3]) ==
            State(map["p" := Periode(10, 1)], [Group("g", "p", None), Group("h", "p", None)], [])
  {
    hide Run, IndexOf, Next;
    var steps, packages := INVERTED_PACKAGE, map["p" := Periode(10, 1)];
    assert steps[..0] == [];
    var g, h := Group("g", "p", None), Group("h", "p", None);
    FirstPublished("p", Periode(10, 1));
    RunStep(steps, 0, EMPTY);
    NoGroupYet("g");
    GroupAdded(State(packages, [], []), "g", "p");
    assert [] + [g] == [g];
    RunStep(steps, 1, State(packages, [], []));
    TwoGroups(g, h);
    GroupAdded(State(packages, [g], []), "h", "p");
    assert [g] + [h] == [g, h];
    RunStep(steps, 2, State(packages, [g], []));
  }

  lemma InvertedPackageSharesAGuide()
    ensures var s := Run(INVERTED_PACKAGE);
            && MovesSafe(INVERTED_PACKAGE)
            && Capacity.GuideSet(GuideColumn(s.groups, "p")) == {"guide"} && GuidedGroups(s.groups, "p") == 2
  {
    var steps, packages := INVERTED_PACKAGE, map["p" := Periode(10, 1)];
    NoMoveIsSafe(steps);
    TwoGroupsPublished();
    assert steps[..5] == steps;
    hide Run, IndexOf, Next, MovesSafe, GuideColumn, GuidedGroups;
    var g, h := Group("g", "p", None), Group("h", "p", None);
    var g', h' := g.(guideId := Some("guide")), h.(guideId := Some("guide"));
    TwoGroups(g, h);
    TwoGroups(g', h);
    var s := State(packages, [g, h], []);
    RunStep(steps, 3, s);
    AssignInverted(s, 0, "guide");
    assert [g, h][0 := g'] == [g', h];
    var t := State(packages, [g', h], []);
    RunStep(steps, 4, t);
    AssignInverted(t, 1, "guide");
    assert [g', h][1 := h'] == [g', h'];
    OneGuideTwoGroups([g', h'], "p", "guide");
  }

  lemma NoGroupYet(id: string)
    ensures IndexOf([], id) == None
  {
  }

  lemma {:induction false} NoMoveIsSafe(steps: seq<Step>)
    requires forall k | 0 <= k < |steps| :: !steps[k].Move?
    ensures MovesSafe(steps)
  {
    if steps != [] {
      NoMoveIsSafe(steps[..|steps| - 1]);
    }
  }
}
