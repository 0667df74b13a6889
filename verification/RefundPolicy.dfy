/**
 * Refund schedules: an agency publishes tiers (days before departure, refunded rate), each booking
 * keeps the tiers in force when it was made, and the clock decides which tier is reached.
 * Rates are in hundredths, amounts in integer cents.
 */
module RefundPolicy {
  import opened Basics
  import opened Sorting

  const DEFAULT_CONFIRMED_RATE: int := 50
  const MAX_THRESHOLD_DAYS: int := 730

  datatype Tier = Tier(minDays: int, rate: int)

  datatype PolicyError = DuplicateThreshold(days: int) | RateIncreases

  datatype Rule = UnpaidBooking | NotRefundable | PlatformDefault | AgencyTier

  datatype Eligibility = Eligibility(rate: int, rule: Rule)

  /** Sorting on this key is sorting by threshold, largest first. */
  function Descending(t: Tier): int {
    -t.minDays
  }

  function SortedTiers(paliers: seq<Tier>): seq<Tier> {
    StableSort(paliers, Descending)
  }

  // ---------------------------------------------------------------- validation

  /** The first complaint about a sorted list of tiers, each compared with the one before it. */
  function FirstFault(tries: seq<Tier>, i: nat): Option<PolicyError>
    requires i <= |tries|
    decreases |tries| - i
  {
    if i == |tries| then None
    else if i > 0 && tries[i - 1].minDays == tries[i].minDays then Some(DuplicateThreshold(tries[i].minDays))
    else if i > 0 && tries[i].rate > tries[i - 1].rate then Some(RateIncreases)
    else FirstFault(tries, i + 1)
  }

  function VerifierPaliers(paliers: seq<Tier>): Result<seq<Tier>, PolicyError> {
    match FirstFault(SortedTiers(paliers), 0)
    case Some(e) => Err(e)
    case None => Ok(SortedTiers(paliers))
  }

  ghost predicate DistinctThresholds(paliers: seq<Tier>) {
    forall i, j | 0 <= i < j < |paliers| :: paliers[i].minDays != paliers[j].minDays
  }

  /** Whatever the order of the list: distinct thresholds, and the earlier the cancellation the higher the rate. */
  ghost predicate Coherent(paliers: seq<Tier>) {
    && DistinctThresholds(paliers)
    && forall p, q | p in paliers && q in paliers && p.minDays > q.minDays :: p.rate >= q.rate
  }

  /** Thresholds strictly decrease and rates never rise along the list. */
  ghost predicate Staircase(tries: seq<Tier>) {
    forall i, j | 0 <= i < j < |tries| :: tries[i].minDays > tries[j].minDays && tries[i].rate >= tries[j].rate
  }

  lemma {:induction false} NoFaultIsAdjacent(tries: seq<Tier>, i: nat)
    requires i <= |tries|
    ensures FirstFault(tries, i).None? <==>
            forall k | i <= k < |tries| && k > 0 :: tries[k - 1].minDays != tries[k].minDays && tries[k].rate <= tries[k - 1].rate
    decreases |tries| - i
  {
    if i < |tries| {
      NoFaultIsAdjacent(tries, i + 1);
    }
  }

  /** Checking neighbours of a sorted list is enough to order every pair. */
  lemma {:induction false} AdjacentIsStaircase(tries: seq<Tier>, i: nat, j: nat)
    requires Sorted(tries, Descending) && i < j < |tries|
    requires forall k | 0 < k < |tries| :: tries[k - 1].minDays != tries[k].minDays && tries[k].rate <= tries[k - 1].rate
    ensures tries[i].minDays > tries[j].minDays && tries[i].rate >= tries[j].rate
  {
    assert Descending(tries[j - 1]) <= Descending(tries[j]);
    assert tries[j - 1].minDays != tries[j].minDays;
    if i < j - 1 {
      AdjacentIsStaircase(tries, i, j - 1);
    }
  }

  lemma StaircaseIffAccepted(paliers: seq<Tier>)
    ensures VerifierPaliers(paliers).Ok? <==> Staircase(SortedTiers(paliers))
  {
    hide StableSort;
    var tries := SortedTiers(paliers);
    SortedPermutation(paliers, Descending);
    NoFaultIsAdjacent(tries, 0);
    if FirstFault(tries, 0).None? {
      forall i, j | 0 <= i < j < |tries|
        ensures tries[i].minDays > tries[j].minDays && tries[i].rate >= tries[j].rate
      {
        AdjacentIsStaircase(tries, i, j);
      }
    }
  }

  lemma CoherentIsStaircase(paliers: seq<Tier>)
    requires Coherent(paliers)
    ensures Staircase(SortedTiers(paliers))
  {
    hide StableSort;
    var tries := SortedTiers(paliers);
    SortedPermutation(paliers, Descending);
    SameElements(paliers, Descending);
    forall i, j | 0 <= i < j < |tries|
      ensures tries[i].minDays > tries[j].minDays && tries[i].rate >= tries[j].rate
    {
      assert Descending(tries[i]) <= Descending(tries[j]);
      assert tries[i] in paliers && tries[j] in paliers;
      ThresholdsCountOnce(paliers, tries[j]);
      CountsGiveDistinct(tries, i, j);
      var k :| 0 <= k < |paliers| && paliers[k] == tries[i];
      var l :| 0 <= l < |paliers| && paliers[l] == tries[j];
    }
  }

  lemma {:induction false} ThresholdsCountOnce(paliers: seq<Tier>, t: Tier)
    requires DistinctThresholds(paliers)
    ensures multiset(paliers)[t] <= 1
  {
    if paliers != [] {
      assert paliers == [paliers[0]] + paliers[1..];
      assert DistinctThresholds(paliers[1..]);
      ThresholdsCountOnce(paliers[1..], t);
      if paliers[0] == t {
        forall i | 0 <= i < |paliers[1..]| ensures paliers[1..][i] != t {
          assert paliers[i + 1].minDays != paliers[0].minDays;
        }
        assert t !in paliers[1..];
      }
    }
  }

  lemma StaircaseIsCoherent(paliers: seq<Tier>)
    requires Staircase(SortedTiers(paliers))
    ensures Coherent(paliers)
  {
    hide StableSort;
    var tries := SortedTiers(paliers);
    SortedPermutation(paliers, Descending);
    SameElements(paliers, Descending);
    forall i, j | 0 <= i < j < |paliers| ensures paliers[i].minDays != paliers[j].minDays {
      StaircaseCountsOnce(tries, paliers[j]);
      CountsGiveDistinct(paliers, i, j);
      assert paliers[i] in paliers && paliers[j] in paliers;
      var k :| 0 <= k < |tries| && tries[k] == paliers[i];
      var l :| 0 <= l < |tries| && tries[l] == paliers[j];
    }
    forall p, q | p in paliers && q in paliers && p.minDays > q.minDays ensures p.rate >= q.rate {
      var k :| 0 <= k < |tries| && tries[k] == p;
      var l :| 0 <= l < |tries| && tries[l] == q;
    }
  }

  lemma StaircaseCountsOnce(tries: seq<Tier>, t: Tier)
    requires Staircase(tries)
    ensures multiset(tries)[t] <= 1
  {
    assert DistinctThresholds(tries);
    ThresholdsCountOnce(tries, t);
  }

  /**
   * A schedule is accepted exactly when it is coherent as a set of tiers; what is stored is then the
   * same tiers, sorted by strictly decreasing threshold.
   */
  lemma AcceptedIffCoherent(paliers: seq<Tier>)
    ensures VerifierPaliers(paliers).Ok? <==> Coherent(paliers)
    ensures VerifierPaliers(paliers).Ok? ==>
              var tries := VerifierPaliers(paliers).value;
              Staircase(tries) && multiset(tries) == multiset(paliers) && Coherent(tries)
  {
    hide StableSort, FirstFault;
    StaircaseIffAccepted(paliers);
    SortedPermutation(paliers, Descending);
    SameElements(paliers, Descending);
    if Coherent(paliers) {
      CoherentIsStaircase(paliers);
    }
    if Staircase(SortedTiers(paliers)) {
      StaircaseIsCoherent(paliers);
    }
  }

  // ---------------------------------------------------------------- eligibility

  /** Whole days before departure, negative once departed. */
  function JoursAvantDepart(depart: int, maintenant: int): int {
    (depart - maintenant) / JOUR_MS
  }

  function FirstReached(tries: seq<Tier>, jours: int): Option<Tier> {
    if tries == [] then None
    else if jours >= tries[0].minDays then Some(tries[0])
    else FirstReached(tries[1..], jours)
  }

  function Eligibilite(statut: BookingStatus, paliers: seq<Tier>, jours: int): Eligibility {
    if statut == PendingPayment then Eligibility(100, UnpaidBooking)
    else if statut != Confirmed then Eligibility(0, NotRefundable)
    else if |paliers| == 0 then Eligibility(DEFAULT_CONFIRMED_RATE, PlatformDefault)
    else
      match FirstReached(SortedTiers(paliers), jours)
      case Some(t) => Eligibility(t.rate, AgencyTier)
      case None => Eligibility(0, NotRefundable)
  }

  lemma {:induction false} FirstReachedSpec(tries: seq<Tier>, jours: int)
    ensures FirstReached(tries, jours).None? <==> forall k | 0 <= k < |tries| :: jours < tries[k].minDays
    ensures FirstReached(tries, jours).Some? ==>
              exists k :: 0 <= k < |tries| && tries[k] == FirstReached(tries, jours).value && jours >= tries[k].minDays &&
                          forall l | 0 <= l < k :: jours < tries[l].minDays
  {
    if tries != [] {
      FirstReachedSpec(tries[1..], jours);
      if jours >= tries[0].minDays {
        assert tries[0] == FirstReached(tries, jours).value;
      } else if FirstReached(tries, jours).Some? {
        var k :| 0 <= k < |tries[1..]| && tries[1..][k] == FirstReached(tries, jours).value && jours >= tries[1..][k].minDays &&
                 forall l | 0 <= l < k :: jours < tries[1..][l].minDays;
        assert tries[k + 1] == FirstReached(tries, jours).value;
        forall l | 0 <= l < k + 1 ensures jours < tries[l].minDays {
          if l > 0 {
            assert tries[1..][l - 1] == tries[l];
          }
        }
      } else {
        forall k | 0 <= k < |tries| ensures jours < tries[k].minDays {
          if k > 0 {
            assert tries[1..][k - 1] == tries[k];
          }
        }
      }
    }
  }

  predicate Reached(t: Tier, jours: int) {
    jours >= t.minDays
  }

  /** The tier applied is, among the reached ones, the one with the largest threshold. */
  lemma AppliesHighestReached(paliers: seq<Tier>, jours: int)
    requires paliers != []
    ensures var e := Eligibilite(Confirmed, paliers, jours);
            if exists t :: t in paliers && Reached(t, jours)
            then e.rule == AgencyTier &&
                 exists t :: t in paliers && Reached(t, jours) && t.rate == e.rate &&
                             forall u | u in paliers && Reached(u, jours) :: u.minDays <= t.minDays
            else e == Eligibility(0, NotRefundable)
  {
    hide StableSort, FirstReached;
    var tries := SortedTiers(paliers);
    SortedPermutation(paliers, Descending);
    SameElements(paliers, Descending);
    FirstReachedSpec(tries, jours);
    if FirstReached(tries, jours).Some? {
      var k :| 0 <= k < |tries| && tries[k] == FirstReached(tries, jours).value && jours >= tries[k].minDays &&
               forall l | 0 <= l < k :: jours < tries[l].minDays;
      var t := tries[k];
      assert t in paliers && Reached(t, jours);
      forall u | u in paliers && Reached(u, jours) ensures u.minDays <= t.minDays {
        var l :| 0 <= l < |tries| && tries[l] == u;
        assert l >= k;
        assert l > k ==> Descending(tries[k]) <= Descending(tries[l]);
      }
    } else {
      forall t | t in paliers ensures !Reached(t, jours) {
        var l :| 0 <= l < |tries| && tries[l] == t;
      }
    }
  }

  /** With an accepted schedule, a confirmed booking gets the best rate among the reached tiers, or nothing. */
  lemma BestReachedRate(paliers: seq<Tier>, jours: int)
    requires Coherent(paliers) && paliers != []
    ensures var e := Eligibilite(Confirmed, paliers, jours);
            if exists t :: t in paliers && Reached(t, jours)
            then (exists t :: t in paliers && Reached(t, jours) && t.rate == e.rate) &&
                 forall u | u in paliers && Reached(u, jours) :: u.rate <= e.rate
            else e == Eligibility(0, NotRefundable)
  {
    hide Eligibilite;
    AppliesHighestReached(paliers, jours);
    var e := Eligibilite(Confirmed, paliers, jours);
    if exists t :: t in paliers && Reached(t, jours) {
      var t :| t in paliers && Reached(t, jours) && t.rate == e.rate &&
               forall u | u in paliers && Reached(u, jours) :: u.minDays <= t.minDays;
      forall u | u in paliers && Reached(u, jours) ensures u.rate <= e.rate {
        SameThresholdSameTier(paliers, t, u);
      }
    }
  }

  lemma SameThresholdSameTier(paliers: seq<Tier>, t: Tier, u: Tier)
    requires DistinctThresholds(paliers) && t in paliers && u in paliers
    ensures t.minDays == u.minDays ==> t == u
  {
    if t.minDays == u.minDays {
      var k :| 0 <= k < |paliers| && paliers[k] == t;
      var l :| 0 <= l < |paliers| && paliers[l] == u;
    }
  }

  ghost predicate NonNegativeRates(paliers: seq<Tier>) {
    forall t | t in paliers :: t.rate >= 0
  }

  /** The bounds checked on the request: rates from 0 to 1, in hundredths. */
  ghost predicate ShareRates(paliers: seq<Tier>) {
    forall t | t in paliers :: 0 <= t.rate <= 100
  }

  /** The rate never goes up when fewer days are left. */
  ghost predicate FallsWithTime(paliers: seq<Tier>) {
    forall early, late | late <= early ::
      Eligibilite(Confirmed, paliers, late).rate <= Eligibilite(Confirmed, paliers, early).rate
  }

  lemma CoherentFalls(paliers: seq<Tier>)
    requires Coherent(paliers) && NonNegativeRates(paliers)
    ensures FallsWithTime(paliers)
  {
    forall early, late | late <= early
      ensures Eligibilite(Confirmed, paliers, late).rate <= Eligibilite(Confirmed, paliers, early).rate
    {
      if paliers != [] {
        RateFalls(paliers, early, late);
      }
    }
  }

  lemma RateFalls(paliers: seq<Tier>, early: int, late: int)
    requires Coherent(paliers) && NonNegativeRates(paliers) && paliers != [] && late <= early
    ensures Eligibilite(Confirmed, paliers, late).rate <= Eligibilite(Confirmed, paliers, early).rate
  {
    hide Eligibilite;
    BestReachedRate(paliers, late);
    BestReachedRate(paliers, early);
    if exists t :: t in paliers && Reached(t, late) {
      var t :| t in paliers && Reached(t, late) && t.rate == Eligibilite(Confirmed, paliers, late).rate;
      assert Reached(t, early);
    } else if exists t :: t in paliers && Reached(t, early) {
      var t :| t in paliers && Reached(t, early) && t.rate == Eligibilite(Confirmed, paliers, early).rate;
    }
  }

  /**
   * Among lists with distinct thresholds and rates from 0 up, validation accepts exactly those for
   * which the refund never rises as the departure approaches.
   */
  lemma AcceptedIffFallsWithTime(paliers: seq<Tier>)
    requires DistinctThresholds(paliers) && NonNegativeRates(paliers)
    ensures VerifierPaliers(paliers).Ok? <==> FallsWithTime(paliers)
  {
    hide Eligibilite, VerifierPaliers;
    AcceptedIffCoherent(paliers);
    if Coherent(paliers) {
      CoherentFalls(paliers);
    }
    if FallsWithTime(paliers) {
      forall p, q | p in paliers && q in paliers && p.minDays > q.minDays ensures p.rate >= q.rate {
        RateAtThreshold(paliers, p);
        RateAtThreshold(paliers, q);
      }
    }
  }

  /** On the very day of a threshold its own tier applies. */
  lemma RateAtThreshold(paliers: seq<Tier>, p: Tier)
    requires DistinctThresholds(paliers) && p in paliers
    ensures Eligibilite(Confirmed, paliers, p.minDays).rate == p.rate
  {
    hide Eligibilite;
    AppliesHighestReached(paliers, p.minDays);
    assert Reached(p, p.minDays);
    var e := Eligibilite(Confirmed, paliers, p.minDays);
    var t :| t in paliers && Reached(t, p.minDays) && t.rate == e.rate &&
             forall u | u in paliers && Reached(u, p.minDays) :: u.minDays <= t.minDays;
    SameThresholdSameTier(paliers, t, p);
  }

  /** For any status, the rate of a booking never increases unless more days are left before departure. */
  lemma RateNeverIncreases(statut: BookingStatus, paliers: seq<Tier>, depart: int, before: int, moved: int, after: int)
    requires Coherent(paliers) && NonNegativeRates(paliers)
    requires JoursAvantDepart(moved, after) <= JoursAvantDepart(depart, before)
    ensures Eligibilite(statut, paliers, JoursAvantDepart(moved, after)).rate <=
            Eligibilite(statut, paliers, JoursAvantDepart(depart, before)).rate
  {
    CoherentFalls(paliers);
  }

  /** Whole days, rounded down: a day in milliseconds is written out. */
  lemma DaysAreWhole(depart: int, maintenant: int)
    ensures JoursAvantDepart(depart, maintenant) * 86_400_000 <= depart - maintenant
          < (JoursAvantDepart(depart, maintenant) + 1) * 86_400_000
  {
  }

  /** A threshold in days is reached exactly from that many times 24 hours before the departure on. */
  lemma ReachedIffEarlyEnough(t: Tier, depart: int, maintenant: int)
    ensures Reached(t, JoursAvantDepart(depart, maintenant)) <==> depart - maintenant >= t.minDays * 86_400_000
  {
    DaysAreWhole(depart, maintenant);
  }

  /**
   * The rate of a booking, on the clock: all of it before confirmation, nothing once cancelled or completed, half
   * when confirmed without a schedule; with a schedule the tier of the largest threshold among those that many
   * times 24 hours or more before departure, nothing when there is none.
   */
  lemma RateOnTheClock(statut: BookingStatus, paliers: seq<Tier>, depart: int, maintenant: int)
    ensures var e := Eligibilite(statut, paliers, JoursAvantDepart(depart, maintenant));
            match statut
            case PendingPayment => e == Eligibility(100, UnpaidBooking)
            case Cancelled => e == Eligibility(0, NotRefundable)
            case Completed => e == Eligibility(0, NotRefundable)
            case Confirmed =>
              if paliers == [] then e == Eligibility(50, PlatformDefault)
              else if forall t | t in paliers :: depart - maintenant < t.minDays * 86_400_000
              then e == Eligibility(0, NotRefundable)
              else e.rule == AgencyTier &&
                   exists t :: t in paliers && t.rate == e.rate && depart - maintenant >= t.minDays * 86_400_000 &&
                               forall u | u in paliers && depart - maintenant >= u.minDays * 86_400_000 ::
                                 u.minDays <= t.minDays
  {
    var jours := JoursAvantDepart(depart, maintenant);
    if statut == Confirmed && paliers != [] {
      AppliesHighestReached(paliers, jours);
      forall t | t in paliers ensures Reached(t, jours) <==> depart - maintenant >= t.minDays * 86_400_000 {
        ReachedIffEarlyEnough(t, depart, maintenant);
      }
      hide Eligibilite, Reached, JoursAvantDepart;
    }
  }

  /** With the departure unmoved the rate never rises as the clock advances. */
  lemma RateFallsWithTheClock(statut: BookingStatus, paliers: seq<Tier>, depart: int, before: int, after: int)
    requires Coherent(paliers) && NonNegativeRates(paliers) && before <= after
    ensures Eligibilite(statut, paliers, JoursAvantDepart(depart, after)).rate <=
            Eligibilite(statut, paliers, JoursAvantDepart(depart, before)).rate
  {
    RateNeverIncreases(statut, paliers, depart, before, depart, after);
  }

  /** The bounds checked on the request: thresholds from 0 to two years. */
  ghost predicate ThresholdsInRange(paliers: seq<Tier>) {
    forall t | t in paliers :: 0 <= t.minDays <= MAX_THRESHOLD_DAYS
  }

  lemma OneTier(t: Tier, jours: int)
    ensures SortedTiers([t]) == [t] && VerifierPaliers([t]) == Ok([t])
    ensures Eligibilite(Confirmed, [t], jours).rate == if jours >= t.minDays then t.rate else 0
  {
    assert [t][1..] == [];
    assert StableSort([t][1..], Descending) == [];
    assert SortedTiers([t]) == [t];
    assert FirstReached([t][1..], jours) == None;
    assert FirstFault([t], 1) == None;
  }

  /** One tier, reached later and not before. */
  lemma OneTierRises(before: int, after: int)
    requires before < after && 0 <= after && before < MAX_THRESHOLD_DAYS
    ensures var paliers := [Tier(Max(before + 1, 0), 100)];
            && Coherent(paliers) && ShareRates(paliers) && ThresholdsInRange(paliers)
            && Eligibilite(Confirmed, paliers, before).rate == 0 && Eligibilite(Confirmed, paliers, after).rate == 100
  {
    var t := Tier(Max(before + 1, 0), 100);
    OneTier(t, before);
    OneTier(t, after);
  }

  /**
   * From one number of days before departure to another, the rate rises for no acceptable schedule if and
   * only if the days have not grown, the departure is past, or every threshold was reached already.
   */
  lemma NeverRisesIffDaysDoNot(before: int, after: int)
    ensures (forall paliers | Coherent(paliers) && ShareRates(paliers) && ThresholdsInRange(paliers) ::
               Eligibilite(Confirmed, paliers, after).rate <= Eligibilite(Confirmed, paliers, before).rate) <==>
            after <= before || after < 0 || before >= MAX_THRESHOLD_DAYS
  {
    hide Eligibilite, Coherent;
    if after <= before || after < 0 || before >= MAX_THRESHOLD_DAYS {
      forall paliers | Coherent(paliers) && ShareRates(paliers) && ThresholdsInRange(paliers)
        ensures Eligibilite(Confirmed, paliers, after).rate <= Eligibilite(Confirmed, paliers, before).rate
      {
        if after <= before {
          CoherentFalls(paliers);
        } else {
          OutOfRange(paliers, before, after);
        }
      }
    } else {
      OneTierRises(before, after);
    }
  }

  /** Once departed nothing is refunded by a tier; from the largest threshold on the best tier applies. */
  lemma OutOfRange(paliers: seq<Tier>, before: int, after: int)
    requires Coherent(paliers) && ShareRates(paliers) && ThresholdsInRange(paliers) && before < after
    requires after < 0 || before >= MAX_THRESHOLD_DAYS
    ensures Eligibilite(Confirmed, paliers, after).rate <= Eligibilite(Confirmed, paliers, before).rate
  {
    if paliers != [] {
      BestReachedRate(paliers, before);
      BestReachedRate(paliers, after);
      hide Eligibilite;
      assert forall t | t in paliers :: Reached(t, before) == Reached(t, after);
    }
  }

  // ---------------------------------------------------------------- snapshots

  datatype Json =
    | JNull
    | JBool(b: bool)
    | JNumber(n: int)
    | JString(s: string)
    | JArray(items: seq<Json>)
    | JObject(fields: map<string, Json>)

  function ReadTier(p: Json): seq<Tier> {
    match p
    case JObject(fields) =>
      if "minDaysBeforeDeparture" in fields && fields["minDaysBeforeDeparture"].JNumber? &&
         "rate" in fields && fields["rate"].JNumber?
      then [Tier(fields["minDaysBeforeDeparture"].n, fields["rate"].n)]
      else []
    case _ => []
  }

  function ReadTiers(items: seq<Json>): seq<Tier> {
    if items == [] then [] else ReadTier(items[0]) + ReadTiers(items[1..])
  }

  /** Reads frozen tiers without trusting their shape. */
  function LirePaliers(json: Json): seq<Tier> {
    match json
    case JArray(items) => ReadTiers(items)
    case _ => []
  }

  function TierJson(t: Tier): Json {
    JObject(map["minDaysBeforeDeparture" := JNumber(t.minDays), "rate" := JNumber(t.rate)])
  }

  function TiersJson(tiers: seq<Tier>): seq<Json> {
    if tiers == [] then [] else [TierJson(tiers[0])] + TiersJson(tiers[1..])
  }

  /** Reading a frozen schedule gives it back unchanged. */
  lemma {:induction false} SnapshotRoundTrip(tiers: seq<Tier>)
    ensures LirePaliers(JArray(TiersJson(tiers))) == tiers
  {
    if tiers != [] {
      SnapshotRoundTrip(tiers[1..]);
      assert TiersJson(tiers)[1..] == TiersJson(tiers[1..]);
      assert ReadTier(TierJson(tiers[0])) == [tiers[0]];
    }
  }

  /** What is read of any stored value: the tiers of its well-formed items, and nothing of anything but a list. */
  lemma {:induction false} ReadsWellFormedTiers(items: seq<Json>, t: Tier)
    ensures t in LirePaliers(JArray(items)) <==>
            exists i :: 0 <= i < |items| && items[i].JObject? &&
                        "minDaysBeforeDeparture" in items[i].fields && "rate" in items[i].fields &&
                        items[i].fields["minDaysBeforeDeparture"] == JNumber(t.minDays) &&
                        items[i].fields["rate"] == JNumber(t.rate)
  {
    if items != [] {
      ReadsWellFormedTiers(items[1..], t);
      assert t in ReadTiers(items) <==> t in ReadTier(items[0]) || t in ReadTiers(items[1..]);
      assert forall i | 0 < i < |items| :: items[i] == items[1..][i - 1];
      assert forall i | 0 <= i < |items| - 1 :: items[1..][i] == items[i + 1];
    }
  }

  lemma ReadsNothingElse(json: Json)
    ensures !json.JArray? ==> LirePaliers(json) == []
  {
  }

  datatype Package = Package(agencyId: string, startDate: int)

  datatype Row = Row(packageId: string, status: BookingStatus, snapshot: Option<Json>)

  /** Tier table by agency, packages and bookings. */
  datatype Store = Store(tiers: map<string, seq<Tier>>, packages: map<string, Package>, bookings: map<string, Row>)

  const EMPTY: Store := Store(map[], map[], map[])

  datatype Step =
    | ReplaceForOwner(agencyId: string, dto: seq<Tier>)
    | Publish(packageId: string, agencyId: string, startDate: int)
    | MoveDeparture(packageId: string, startDate: int)
    | Create(bookingId: string, packageId: string)
    | SetStatus(bookingId: string, status: BookingStatus)

  function InForce(s: Store, agencyId: string): seq<Tier> {
    if agencyId in s.tiers then s.tiers[agencyId] else []
  }

  function Next(s: Store, step: Step): Store {
    match step
    case ReplaceForOwner(agencyId, dto) =>
      match VerifierPaliers(dto) {
        case Err(_) => s
        case Ok(paliers) => s.(tiers := s.tiers[agencyId := paliers])
      }
    case Publish(packageId, agencyId, startDate) =>
      if packageId in s.packages then s else s.(packages := s.packages[packageId := Package(agencyId, startDate)])
    case MoveDeparture(packageId, startDate) =>
      if packageId !in s.packages then s
      else s.(packages := s.packages[packageId := s.packages[packageId].(startDate := startDate)])
    case Create(bookingId, packageId) =>
      if bookingId in s.bookings || packageId !in s.packages then s
      else
        var paliers := SortedTiers(InForce(s, s.packages[packageId].agencyId));
        var snapshot := if |paliers| > 0 then Some(JArray(TiersJson(paliers))) else None;
        s.(bookings := s.bookings[bookingId := Row(packageId, PendingPayment, snapshot)])
    case SetStatus(bookingId, status) =>
      if bookingId in s.bookings then s.(bookings := s.bookings[bookingId := s.bookings[bookingId].(status := status)])
      else s
  }

  function Run(s: Store, steps: seq<Step>): Store {
    if steps == [] then s else Next(Run(s, steps[..|steps| - 1]), steps[|steps| - 1])
  }

  datatype Context = Context(rate: int, rule: Rule, daysBeforeDeparture: int, tiers: seq<Tier>)

  function ContextFor(s: Store, bookingId: string, maintenant: int): Option<Context> {
    if bookingId !in s.bookings || s.bookings[bookingId].packageId !in s.packages then None
    else
      var row := s.bookings[bookingId];
      var tiers := FrozenTiers(row);
      var days := JoursAvantDepart(s.packages[row.packageId].startDate, maintenant);
      var e := Eligibilite(row.status, tiers, days);
      Some(Context(e.rate, e.rule, days, tiers))
  }

  function FrozenTiers(row: Row): seq<Tier> {
    LirePaliers(row.snapshot.GetOr(JNull))
  }

  /** Only accepted schedules are ever in force, and they are kept sorted. */
  ghost predicate Inv(s: Store) {
    && (forall a | a in s.tiers :: Staircase(s.tiers[a]) && ShareRates(s.tiers[a]))
    && (forall b | b in s.bookings :: Coherent(FrozenTiers(s.bookings[b])) && ShareRates(FrozenTiers(s.bookings[b])))
    && (forall b | b in s.bookings :: s.bookings[b].packageId in s.packages)
  }

  ghost predicate ChecksRates(step: Step) {
    step.ReplaceForOwner? ==> ShareRates(step.dto)
  }

  lemma StaircaseIsSorted(tiers: seq<Tier>)
    requires Staircase(tiers)
    ensures SortedTiers(tiers) == tiers
  {
    hide StableSort, Class;
    SortedPermutation(tiers, Descending);
    forall k ensures Class(StableSort(tiers, Descending), Descending, k) == Class(tiers, Descending, k) {
      Stability(tiers, Descending, k);
    }
    StableSortIsUnique(StableSort(tiers, Descending), tiers, Descending);
  }

  lemma AcceptedRates(dto: seq<Tier>)
    requires VerifierPaliers(dto).Ok? && ShareRates(dto)
    ensures Staircase(VerifierPaliers(dto).value) && ShareRates(VerifierPaliers(dto).value)
  {
    hide VerifierPaliers, Coherent, Staircase;
    AcceptedIffCoherent(dto);
    forall t | t in VerifierPaliers(dto).value ensures 0 <= t.rate <= 100 {
      assert t in multiset(VerifierPaliers(dto).value);
    }
  }

  /** What a booking freezes when its agency's schedule is accepted: that schedule. */
  lemma FreezesAccepted(tiers: seq<Tier>, row: Row)
    requires Staircase(tiers) && ShareRates(tiers)
    requires row.snapshot == if |SortedTiers(tiers)| > 0 then Some(JArray(TiersJson(SortedTiers(tiers)))) else None
    ensures Coherent(FrozenTiers(row)) && ShareRates(FrozenTiers(row))
  {
    StaircaseIsSorted(tiers);
    SnapshotRoundTrip(tiers);
    NoSnapshot();
    StaircaseIsCoherent(tiers);
    hide SortedTiers, LirePaliers, TiersJson, Staircase;
  }

  lemma NextKeepsInv(s: Store, step: Step)
    requires Inv(s) && ChecksRates(step)
    ensures Inv(Next(s, step))
  {
    hide VerifierPaliers, SortedTiers, LirePaliers, TiersJson, Staircase, Coherent, ShareRates, FrozenTiers;
    match step
    case ReplaceForOwner(agencyId, dto) =>
      if VerifierPaliers(dto).Ok? {
        AcceptedRates(dto);
      }
    case Create(bookingId, packageId) =>
      if packageId in s.packages && bookingId !in s.bookings {
        NothingInForce();
        FreezesAccepted(InForce(s, s.packages[packageId].agencyId), Next(s, step).bookings[bookingId]);
      }
    case SetStatus(bookingId, status) =>
      if bookingId in s.bookings {
        SameFrozenTiers(s.bookings[bookingId], status);
      }
    case _ =>
  }

  lemma NothingInForce()
    ensures Staircase([]) && ShareRates([])
  {
  }

  lemma SameFrozenTiers(row: Row, status: BookingStatus)
    ensures FrozenTiers(row.(status := status)) == FrozenTiers(row)
  {
  }

  lemma NoSnapshot()
    ensures LirePaliers(JNull) == [] && LirePaliers(JArray(TiersJson([]))) == []
  {
  }

  lemma {:induction false} RunKeepsInv(steps: seq<Step>)
    requires forall k | 0 <= k < |steps| :: ChecksRates(steps[k])
    ensures Inv(Run(EMPTY, steps))
  {
    if steps != [] {
      RunKeepsInv(steps[..|steps| - 1]);
      NextKeepsInv(Run(EMPTY, steps[..|steps| - 1]), steps[|steps| - 1]);
    }
  }

  lemma RateIsShare(statut: BookingStatus, paliers: seq<Tier>, jours: int)
    requires ShareRates(paliers)
    ensures 0 <= Eligibilite(statut, paliers, jours).rate <= 100
  {
    hide StableSort, FirstReached;
    if paliers != [] {
      AppliesHighestReached(paliers, jours);
    }
  }

  /** A later step never changes the tiers frozen on an existing booking, nor its package. */
  lemma NextKeepsSnapshot(s: Store, step: Step, bookingId: string)
    requires bookingId in s.bookings
    ensures bookingId in Next(s, step).bookings
    ensures Next(s, step).bookings[bookingId].snapshot == s.bookings[bookingId].snapshot
    ensures Next(s, step).bookings[bookingId].packageId == s.bookings[bookingId].packageId
  {
  }

  lemma {:induction false} RunKeepsSnapshot(steps: seq<Step>, i: nat, bookingId: string)
    requires i <= |steps| && bookingId in Run(EMPTY, steps[..i]).bookings
    ensures bookingId in Run(EMPTY, steps).bookings
    ensures Run(EMPTY, steps).bookings[bookingId].snapshot == Run(EMPTY, steps[..i]).bookings[bookingId].snapshot
    ensures Run(EMPTY, steps).bookings[bookingId].packageId == Run(EMPTY, steps[..i]).bookings[bookingId].packageId
  {
    hide Next;
    if i == |steps| {
      assert steps[..i] == steps;
    } else {
      var init := steps[..|steps| - 1];
      assert init[..i] == steps[..i];
      RunKeepsSnapshot(init, i, bookingId);
      NextKeepsSnapshot(Run(EMPTY, init), steps[|steps| - 1], bookingId);
    }
  }

  function StatusOf(s: Store, bookingId: string): Option<BookingStatus> {
    if bookingId in s.bookings then Some(s.bookings[bookingId].status) else None
  }

  /** Days left before the departure of a booking, as its package stands. */
  function DaysLeft(s: Store, bookingId: string, now: int): int {
    if bookingId in s.bookings && s.bookings[bookingId].packageId in s.packages
    then JoursAvantDepart(s.packages[s.bookings[bookingId].packageId].startDate, now)
    else 0
  }

  lemma BookingHasPackage(steps: seq<Step>, bookingId: string)
    requires forall k | 0 <= k < |steps| :: ChecksRates(steps[k])
    requires bookingId in Run(EMPTY, steps).bookings
    ensures Run(EMPTY, steps).bookings[bookingId].packageId in Run(EMPTY, steps).packages
  {
    RunKeepsInv(steps);
  }

  lemma PrefixChecksRates(steps: seq<Step>, i: nat)
    requires i <= |steps| && forall k | 0 <= k < |steps| :: ChecksRates(steps[k])
    ensures forall k | 0 <= k < |steps[..i]| :: ChecksRates(steps[..i][k])
  {
  }

  /**
   * Between two moments of any run, whatever is published or moved in between, the rate of a booking does
   * not increase if its status is the same at both and no more days are left before its departure.
   */
  lemma RateOfBookingFalls(steps: seq<Step>, i: nat, bookingId: string, before: int, after: int)
    requires i <= |steps| && forall k | 0 <= k < |steps| :: ChecksRates(steps[k])
    requires bookingId in Run(EMPTY, steps[..i]).bookings
    requires StatusOf(Run(EMPTY, steps), bookingId) == StatusOf(Run(EMPTY, steps[..i]), bookingId)
    requires DaysLeft(Run(EMPTY, steps), bookingId, after) <= DaysLeft(Run(EMPTY, steps[..i]), bookingId, before)
    ensures var (earlier, later) := (ContextFor(Run(EMPTY, steps[..i]), bookingId, before),
                                ContextFor(Run(EMPTY, steps), bookingId, after));
            earlier.Some? && later.Some? && 0 <= later.value.rate <= earlier.value.rate <= 100
  {
    hide Run, Eligibilite, LirePaliers;
    PrefixChecksRates(steps, i);
    RunKeepsInv(steps[..i]);
    RunKeepsSnapshot(steps, i, bookingId);
    BookingHasPackage(steps[..i], bookingId);
    BookingHasPackage(steps, bookingId);
    var s, t := Run(EMPTY, steps[..i]), Run(EMPTY, steps);
    var row := s.bookings[bookingId];
    var depart, moved := s.packages[row.packageId].startDate, t.packages[row.packageId].startDate;
    assert FrozenTiers(t.bookings[bookingId]) == FrozenTiers(row);
    RateNeverIncreases(row.status, FrozenTiers(row), depart, before, moved, after);
    RateIsShare(row.status, FrozenTiers(row), JoursAvantDepart(depart, before));
    RateIsShare(row.status, FrozenTiers(row), JoursAvantDepart(moved, after));
  }

  /** A confirmed booking whose departure is then postponed by two days. */
  const POSTPONED: seq<Step> :=
    [Publish("p", "a", 0), ReplaceForOwner("a", [Tier(1, 100)]), Create("b", "p"), SetStatus("b", Confirmed),
     MoveDeparture("p", 2 * JOUR_MS)]

  lemma RunStep(steps: seq<Step>, k: nat, s: Store)
    requires k < |steps| && Run(EMPTY, steps[..k]) == s
    ensures Run(EMPTY, steps[..k + 1]) == Next(s, steps[k])
  {
    assert steps[..k + 1][..k] == steps[..k];
  }

  /** The store before the move, the booking being confirmed. */
  function BeforeMove(t: Tier): Store {
    Store(map["a" := [t]], map["p" := Package("a", 0)],
          map["b" := Row("p", Confirmed, Some(JArray(TiersJson([t]))))])
  }

  lemma ReachesBeforeMove()
    ensures Run(EMPTY, POSTPONED[..4]) == BeforeMove(Tier(1, 100))
  {
    var t := Tier(1, 100);
    OneTier(t, 0);
    assert POSTPONED[..0] == [];
    assert Run(EMPTY, POSTPONED[..0]) == EMPTY;
    hide Run, SortedTiers, VerifierPaliers, TiersJson;
    var packages := map["p" := Package("a", 0)];
    var s1 := Store(map[], packages, map[]);
    RunStep(POSTPONED, 0, EMPTY);
    var s2 := Store(map["a" := [t]], packages, map[]);
    RunStep(POSTPONED, 1, s1);
    var s3 := s2.(bookings := map["b" := Row("p", PendingPayment, Some(JArray(TiersJson([t]))))]);
    RunStep(POSTPONED, 2, s2);
    RunStep(POSTPONED, 3, s3);
    assert Next(s3, POSTPONED[3]) == BeforeMove(t);
  }

  /** Postponing a departure can raise the rate, at one and the same instant. */
  lemma PostponingRaisesTheRate()
    ensures ContextFor(Run(EMPTY, POSTPONED[..4]), "b", 0) == Some(Context(0, NotRefundable, 0, [Tier(1, 100)]))
    ensures ContextFor(Run(EMPTY, POSTPONED), "b", 0) == Some(Context(100, AgencyTier, 2, [Tier(1, 100)]))
  {
    var t := Tier(1, 100);
    OneTier(t, 0);
    OneTier(t, 2);
    SnapshotRoundTrip([t]);
    ReachesBeforeMove();
    assert POSTPONED[..5] == POSTPONED;
    RunStep(POSTPONED, 4, BeforeMove(t));
    hide Run, SortedTiers, LirePaliers, TiersJson;
  }

  /**
   * In any run, the schedule applied to a booking is the one that was in force in its agency just
   * before the booking was made, whatever the agency publishes later.
   */
  lemma SnapshotIsolation(steps: seq<Step>, i: nat, maintenant: int)
    requires i < |steps| && steps[i].Create?
    requires forall k | 0 <= k < |steps| :: ChecksRates(steps[k])
    requires var s := Run(EMPTY, steps[..i]); steps[i].bookingId !in s.bookings && steps[i].packageId in s.packages
    ensures var (before, s) := (Run(EMPTY, steps[..i]), Run(EMPTY, steps));
            && ContextFor(s, steps[i].bookingId, maintenant).Some?
            && ContextFor(s, steps[i].bookingId, maintenant).value.tiers ==
               InForce(before, before.packages[steps[i].packageId].agencyId)
  {
    hide Run, SortedTiers, ReadTiers, TiersJson, Eligibilite, VerifierPaliers;
    var before := Run(EMPTY, steps[..i]);
    PrefixChecksRates(steps, i);
    RunKeepsInv(steps[..i]);
    var inForce := InForce(before, before.packages[steps[i].packageId].agencyId);
    StaircaseIsSorted(inForce);
    SnapshotRoundTrip(inForce);
    NoSnapshot();
    RunStep(steps, i, before);
    RunKeepsSnapshot(steps, i + 1, steps[i].bookingId);
    BookingHasPackage(steps, steps[i].bookingId);
  }

  // ---------------------------------------------------------------- refunds

  datatype PaymentStatus = Pending | Succeeded | Failed | Refunded

  datatype Preview = Preview(eligibleRate: int, refundable: int, rule: Rule)

  datatype RefundError = NotConfirmedPayment | NoLongerRefundable

  /** `Math.round(amount * rate * 100) / 100`, in cents: halves are rounded up. */
  function RefundCents(amount: int, rate: int): int {
    (2 * amount * rate + 100) / 200
  }

  function PreviewRefund(status: PaymentStatus, amount: int, contexte: Context): Preview {
    var remboursable := status == Succeeded;
    var eligibleRate := if remboursable then contexte.rate else 0;
    Preview(eligibleRate, RefundCents(amount, eligibleRate), if remboursable then contexte.rule else NotRefundable)
  }

  /** A refund lies between nothing and the payment, and within half a cent of the exact share, a half going up. */
  lemma RefundIsFair(amount: int, rate: int)
    requires amount >= 0 && 0 <= rate <= 100
    ensures 0 <= RefundCents(amount, rate) <= amount
    ensures -50 < 100 * RefundCents(amount, rate) - amount * rate <= 50
    ensures RefundCents(amount, 0) == 0 && RefundCents(amount, 100) == amount
  {
    var exact := amount * rate;
    var r := RefundCents(amount, rate);
    assert 2 * amount * rate == 2 * exact;
    assert 200 * r <= 2 * exact + 100 < 200 * r + 200;
    assert 0 <= exact <= 100 * amount;
  }

  /** A refund rounds to nothing exactly when the exact share is less than half a cent. */
  lemma NothingToRefundIff(amount: int, rate: int)
    requires amount >= 0 && rate >= 0
    ensures RefundCents(amount, rate) == 0 <==> amount * rate < 50
  {
    assert 2 * amount * rate == 2 * (amount * rate);
    assert amount * rate >= 0;
  }

  /** A better rate never refunds less. */
  lemma RefundGrowsWithRate(amount: int, low: int, high: int)
    requires amount >= 0 && low <= high
    ensures RefundCents(amount, low) <= RefundCents(amount, high)
  {
    assert amount * low <= amount * high;
    assert 2 * amount * low + 100 <= 2 * amount * high + 100;
  }

  class Payment {
    const amount: int
    var status: PaymentStatus
    var refundedAmount: Option<int>

    ghost predicate Valid()
      reads this
    {
      amount >= 0 && (status == Refunded <==> refundedAmount.Some?) &&
      (refundedAmount.Some? ==> 0 <= refundedAmount.value <= amount)
    }

    constructor (amount: int)
      requires amount >= 0
      ensures Valid() && this.amount == amount && status == Pending
    {
      this.amount := amount;
      status := Pending;
      refundedAmount := None;
    }

    /**
     * At one instant, the request pays exactly what the preview announced. It fails only when the payment is not
     * confirmed or the rate is zero: a refund that rounds to nothing goes through.
     */
    method RequestRefund(contexte: Context) returns (r: Result<int, RefundError>)
      requires Valid() && 0 <= contexte.rate <= 100
      modifies this
      ensures Valid()
      ensures r.Ok? <==> PreviewRefund(old(status), amount, contexte).eligibleRate > 0
      ensures r.Ok? ==> r.value == PreviewRefund(old(status), amount, contexte).refundable
      ensures r.Ok? <==> old(status) == Succeeded && contexte.rate > 0
      ensures r.Ok? ==> r.value == RefundCents(amount, contexte.rate)
      ensures r.Ok? ==> status == Refunded && refundedAmount == Some(r.value)
      ensures r == Err(NotConfirmedPayment) <==> old(status) != Succeeded
      ensures r.Err? ==> status == old(status) && refundedAmount == old(refundedAmount)
    {
      if status != Succeeded {
        return Err(NotConfirmedPayment);
      }
      if contexte.rate == 0 {
        return Err(NoLongerRefundable);
      }
      var montant := RefundCents(amount, contexte.rate);
      RefundIsFair(amount, contexte.rate);
      status := Refunded;
      refundedAmount := Some(montant);
      r := Ok(montant);
    }
  }

  /** One cent at two fifths: the request succeeds, pays nothing, and the payment is marked as refunded. */
  method OneCentRefundsNothing() returns (r: Result<int, RefundError>, status: PaymentStatus)
    ensures r == Ok(0) && status == Refunded
  {
    var payment := new Payment(1);
    payment.status := Succeeded;
    r := payment.RequestRefund(Context(40, AgencyTier, 10, [Tier(0, 40)]));
    status := payment.status;
  }
}
