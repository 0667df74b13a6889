/**
 * Treasury projection: the outstanding balance of every booking is spread over future months, either
 * by the instalments of a savings plan or at the balance due date. Amounts are integer minor units.
 */
module Treasury {
  import opened Basics
  import opened Sorting

  const BALANCE_DUE_DAYS_BEFORE_DEPARTURE: int := 30

  datatype Frequency = Weekly | Monthly

  datatype Plan = Plan(autoDeduct: bool, deductAmount: Option<int>, nextDeductDate: Option<int>,
                       frequency: Option<Frequency>)

  /** A booking that is not cancelled, with its succeeded payments. */
  datatype Booking = Booking(price: int, startDate: int, payments: seq<int>, plan: Option<Plan>)

  /** The calendar of the server: the month of an instant, and the same day one month later. */
  datatype Calendar = Calendar(monthOf: int -> int, nextMonth: int -> int)

  ghost predicate ValidCalendar(c: Calendar) {
    forall d :: c.nextMonth(d) > d
  }

  /** An amount expected at a date. */
  datatype Due = Due(date: int, amount: int)

  datatype Projection = Projection(month: int, expectedAmount: int)

  function Collected(b: Booking): int {
    Sum(b.payments)
  }

  function Balance(b: Booking): int {
    Max(0, b.price - Collected(b))
  }

  function BalanceDueDate(departure: int): int {
    departure - BALANCE_DUE_DAYS_BEFORE_DEPARTURE * JOUR_MS
  }

  /** JavaScript truthiness of the five fields the projection tests. */
  predicate Usable(plan: Option<Plan>) {
    && plan.Some? && plan.value.autoDeduct
    && plan.value.deductAmount.Some? && plan.value.deductAmount.value != 0
    && plan.value.nextDeductDate.Some? && plan.value.frequency.Some?
  }

  function Advance(date: int, frequency: Frequency, c: Calendar): int {
    match frequency
    case Weekly => date + 7 * JOUR_MS
    case Monthly => c.nextMonth(date)
  }

  // ---------------------------------------------------------------- what each booking contributes

  /** Instalments until the balance is paid or the departure is reached, then what remains, at departure. */
  function Instalments(balance: int, date: int, deduct: int, frequency: Frequency, departure: int, c: Calendar): seq<Due>
    requires ValidCalendar(c)
    decreases departure - date
  {
    if balance > 0 && date < departure then
      var amount := Min(balance, deduct);
      [Due(date, amount)] +
      Instalments(balance - amount, Advance(date, frequency, c), deduct, frequency, departure, c)
    else if balance > 0 then [Due(departure, balance)]
    else []
  }

  function DuesOf(b: Booking, now: int, c: Calendar): seq<Due>
    requires ValidCalendar(c)
  {
    if Balance(b) <= 0 then []
    else if Usable(b.plan) then
      Instalments(Balance(b), b.plan.value.nextDeductDate.value, b.plan.value.deductAmount.value,
                  b.plan.value.frequency.value, b.startDate, c)
    else [Due(Max(BalanceDueDate(b.startDate), now), Balance(b))]
  }

  function AllDues(bookings: seq<Booking>, now: int, c: Calendar): seq<Due>
    requires ValidCalendar(c)
  {
    if bookings == [] then []
    else AllDues(bookings[..|bookings| - 1], now, c) + DuesOf(bookings[|bookings| - 1], now, c)
  }

  function Amounts(dues: seq<Due>): int {
    if dues == [] then 0 else Amounts(dues[..|dues| - 1]) + dues[|dues| - 1].amount
  }

  function MonthAmounts(dues: seq<Due>, month: int, c: Calendar): int {
    if dues == [] then 0
    else MonthAmounts(dues[..|dues| - 1], month, c) +
         (if c.monthOf(dues[|dues| - 1].date) == month then dues[|dues| - 1].amount else 0)
  }

  lemma {:induction false} AmountsConcat(a: seq<Due>, b: seq<Due>)
    ensures Amounts(a + b) == Amounts(a) + Amounts(b)
  {
    if b == [] {
      assert a + b == a;
    } else {
      assert (a + b)[..|a + b| - 1] == a + b[..|b| - 1];
      AmountsConcat(a, b[..|b| - 1]);
    }
  }

  /** The instalments of a plan add up to the balance, whatever the amount deducted. */
  lemma {:induction false} InstalmentsAddUp(balance: int, date: int, deduct: int, frequency: Frequency, departure: int,
                                            c: Calendar)
    requires ValidCalendar(c) && balance >= 0
    ensures Amounts(Instalments(balance, date, deduct, frequency, departure, c)) == balance
    decreases departure - date
  {
    if balance > 0 && date < departure {
      var amount := Min(balance, deduct);
      var rest := Instalments(balance - amount, Advance(date, frequency, c), deduct, frequency, departure, c);
      InstalmentsAddUp(balance - amount, Advance(date, frequency, c), deduct, frequency, departure, c);
      AmountsConcat([Due(date, amount)], rest);
      assert [Due(date, amount)][..0] == [];
    } else if balance > 0 {
      assert [Due(departure, balance)][..0] == [];
    }
  }

  /** Every booking contributes exactly its balance. */
  lemma BookingContributesItsBalance(b: Booking, now: int, c: Calendar)
    requires ValidCalendar(c)
    ensures Amounts(DuesOf(b, now, c)) == Balance(b)
  {
    if Balance(b) > 0 && Usable(b.plan) {
      InstalmentsAddUp(Balance(b), b.plan.value.nextDeductDate.value, b.plan.value.deductAmount.value,
                       b.plan.value.frequency.value, b.startDate, c);
    } else if Balance(b) > 0 {
      assert DuesOf(b, now, c)[..0] == [];
    }
  }

  /** What makes a plan followed: it deducts automatically, and says how much, from when and how often. */
  lemma PlanFollowedIff(plan: Option<Plan>)
    ensures Usable(plan) <==>
            match plan
            case Some(Plan(true, Some(deduct), Some(_), Some(_))) => deduct != 0
            case _ => false
  {
  }

  /** A booking fully paid owes nothing more, and only such a booking. */
  lemma NothingDueIffPaid(b: Booking, now: int, c: Calendar)
    requires ValidCalendar(c)
    ensures DuesOf(b, now, c) == [] <==> Sum(b.payments) >= b.price
  {
    if Balance(b) > 0 {
      BookingContributesItsBalance(b, now, c);
    }
  }

  /** Without a usable plan the balance falls due once, thirty days before departure or now if that is past. */
  lemma UnplannedBalanceIsDueOnce(b: Booking, now: int, c: Calendar)
    requires ValidCalendar(c) && !Usable(b.plan) && Sum(b.payments) < b.price
    ensures |DuesOf(b, now, c)| == 1
    ensures var d := DuesOf(b, now, c)[0];
            && d.amount == b.price - Sum(b.payments)
            && now <= d.date && b.startDate - d.date <= 30 * 86_400_000
            && (d.date > now ==> b.startDate - d.date == 30 * 86_400_000)
  {
  }

  /**
   * Amounts are positive and dates increase; each due is either an instalment of at most `deduct`,
   * dated from `date` on and before the departure, or the last one, at departure.
   */
  ghost predicate WellSpread(dues: seq<Due>, date: int, deduct: int, departure: int) {
    && (forall k | 0 <= k < |dues| :: dues[k].amount > 0)
    && (forall k | 0 <= k < |dues| ::
          (date <= dues[k].date < departure && dues[k].amount <= deduct) ||
          (dues[k].date == departure && k == |dues| - 1))
    && (forall k, l | 0 <= k < l < |dues| :: dues[k].date < dues[l].date)
  }

  lemma WellSpreadCons(d: Due, rest: seq<Due>, next: int, deduct: int, departure: int)
    requires WellSpread(rest, next, deduct, departure) && d.date < next
    requires d.date < departure && 0 < d.amount <= deduct
    ensures WellSpread([d] + rest, d.date, deduct, departure)
  {
    var dues := [d] + rest;
    forall k, l | 0 <= k < l < |dues| ensures dues[k].date < dues[l].date {
      assert dues[l] == rest[l - 1];
      if k > 0 {
        assert dues[k] == rest[k - 1];
      }
    }
  }

  /** A savings plan that deducts something spreads the balance as described by `WellSpread`. */
  lemma {:induction false} InstalmentsAreWellSpread(balance: int, date: int, deduct: int, frequency: Frequency,
                                                    departure: int, c: Calendar)
    requires ValidCalendar(c) && balance >= 0 && deduct > 0
    ensures WellSpread(Instalments(balance, date, deduct, frequency, departure, c), date, deduct, departure)
    decreases departure - date
  {
    if balance > 0 && date < departure {
      var amount, next := Min(balance, deduct), Advance(date, frequency, c);
      assert c.nextMonth(date) > date;
      InstalmentsAreWellSpread(balance - amount, next, deduct, frequency, departure, c);
      WellSpreadCons(Due(date, amount), Instalments(balance - amount, next, deduct, frequency, departure, c),
                     next, deduct, departure);
    }
  }

  // ---------------------------------------------------------------- the map of months

  /** Every instalment of a weekly plan comes seven days after the one before, the first at the date of the plan. */
  lemma {:induction false} WeeklyDates(balance: int, date: int, deduct: int, departure: int, c: Calendar, k: nat)
    requires ValidCalendar(c) && k < |Instalments(balance, date, deduct, Weekly, departure, c)|
    ensures var due := Instalments(balance, date, deduct, Weekly, departure, c)[k];
            due.date == if date + k * 7 * 86_400_000 < departure then date + k * 7 * 86_400_000 else departure
    decreases departure - date
  {
    if balance > 0 && date < departure && k > 0 {
      WeeklyDates(balance - Min(balance, deduct), date + 7 * JOUR_MS, deduct, departure, c, k - 1);
    }
  }

  /** Every instalment of a monthly plan comes a month after the one before, as long as that is before departure. */
  lemma {:induction false} MonthlyDates(balance: int, date: int, deduct: int, departure: int, c: Calendar, k: nat)
    requires ValidCalendar(c) && k + 1 < |Instalments(balance, date, deduct, Monthly, departure, c)|
    ensures var dues := Instalments(balance, date, deduct, Monthly, departure, c);
            && dues[0].date == date
            && dues[k + 1].date == if c.nextMonth(dues[k].date) < departure then c.nextMonth(dues[k].date) else departure
    decreases departure - date
  {
    assert c.nextMonth(date) > date;
    if k > 0 {
      MonthlyDates(balance - Min(balance, deduct), c.nextMonth(date), deduct, departure, c, k - 1);
    }
  }

  /** Every due but the last is a full deduction. */
  lemma {:induction false} FullDeductions(balance: int, date: int, deduct: int, frequency: Frequency, departure: int,
                                          c: Calendar, k: nat)
    requires ValidCalendar(c) && deduct > 0 && k + 1 < |Instalments(balance, date, deduct, frequency, departure, c)|
    ensures Instalments(balance, date, deduct, frequency, departure, c)[k].amount == deduct
    decreases departure - date
  {
    assert c.nextMonth(date) > date;
    if k > 0 {
      FullDeductions(balance - Min(balance, deduct), Advance(date, frequency, c), deduct, frequency, departure, c, k - 1);
    }
  }

  /** A followed plan spreads the balance of its booking from its own date, by its own deduction. */
  lemma PlanIsFollowed(b: Booking, now: int, c: Calendar, deduct: int, first: int, frequency: Frequency)
    requires ValidCalendar(c) && deduct > 0 && Sum(b.payments) < b.price
    requires b.plan == Some(Plan(true, Some(deduct), Some(first), Some(frequency)))
    ensures DuesOf(b, now, c) == Instalments(b.price - Sum(b.payments), first, deduct, frequency, b.startDate, c)
    ensures WellSpread(DuesOf(b, now, c), first, deduct, b.startDate)
  {
    InstalmentsAreWellSpread(b.price - Sum(b.payments), first, deduct, frequency, b.startDate, c);
  }

  /** `map.set(month, (map.get(month) || 0) + amount)` on a JavaScript map, which keeps insertion order. */
  function Add(m: seq<Projection>, month: int, amount: int): seq<Projection> {
    if m == [] then [Projection(month, amount)]
    else if m[0].month == month then [Projection(month, m[0].expectedAmount + amount)] + m[1..]
    else [m[0]] + Add(m[1..], month, amount)
  }

  function AddDues(m: seq<Projection>, dues: seq<Due>, c: Calendar): seq<Projection> {
    if dues == [] then m
    else Add(AddDues(m, dues[..|dues| - 1], c), c.monthOf(dues[|dues| - 1].date), dues[|dues| - 1].amount)
  }

  function Lookup(m: seq<Projection>, month: int): Option<int> {
    if m == [] then None
    else if m[0].month == month then Some(m[0].expectedAmount)
    else Lookup(m[1..], month)
  }

  function AmountOf(p: Projection): int {
    p.expectedAmount
  }

  function Total(m: seq<Projection>): int {
    SumOf(m, AmountOf)
  }

  ghost predicate DistinctMonths(m: seq<Projection>) {
    forall i, j | 0 <= i < j < |m| :: m[i].month != m[j].month
  }

  lemma {:induction false} AddSpec(m: seq<Projection>, month: int, amount: int, k: int)
    ensures Total(Add(m, month, amount)) == Total(m) + amount
    ensures Lookup(Add(m, month, amount), k) == if k == month then Some(Lookup(m, month).GetOr(0) + amount) else Lookup(m, k)
  {
    var r := Add(m, month, amount);
    if m != [] && m[0].month != month {
      AddSpec(m[1..], month, amount, k);
      assert r[0] == m[0] && r[1..] == Add(m[1..], month, amount);
    } else if m != [] {
      assert r[0] == Projection(month, m[0].expectedAmount + amount) && r[1..] == m[1..];
    } else {
      assert r[1..] == m;
    }
  }

  lemma {:induction false} LookupEntry(m: seq<Projection>, i: nat)
    requires DistinctMonths(m) && i < |m|
    ensures Lookup(m, m[i].month) == Some(m[i].expectedAmount)
  {
    if i > 0 {
      assert m[0].month != m[i].month;
      assert DistinctMonths(m[1..]);
      LookupEntry(m[1..], i - 1);
    }
  }

  ghost predicate HasMonth(m: seq<Projection>, month: int) {
    exists i :: 0 <= i < |m| && m[i].month == month
  }

  lemma {:induction false} AddKeepsDistinct(m: seq<Projection>, month: int, amount: int)
    requires DistinctMonths(m)
    ensures DistinctMonths(Add(m, month, amount))
    ensures forall k :: HasMonth(Add(m, month, amount), k) ==> k == month || HasMonth(m, k)
  {
    if m != [] && m[0].month != month {
      AddKeepsDistinct(m[1..], month, amount);
      var tail := Add(m[1..], month, amount);
      forall j | 0 <= j < |tail| ensures tail[j].month != m[0].month {
        assert HasMonth(tail, tail[j].month);
        if tail[j].month != month {
          var i :| 0 <= i < |m[1..]| && m[1..][i].month == tail[j].month;
          assert m[i + 1].month == tail[j].month;
        }
      }
      forall k | HasMonth(Add(m, month, amount), k) && k != month ensures HasMonth(m, k) {
        HasMonthTail(Add(m, month, amount), k);
        HasMonthTail(m, k);
      }
    } else if m != [] {
      forall k | HasMonth(Add(m, month, amount), k) && k != month ensures HasMonth(m, k) {
        HasMonthTail(Add(m, month, amount), k);
        HasMonthTail(m, k);
      }
    }
  }

  lemma HasMonthTail(m: seq<Projection>, k: int)
    requires m != []
    ensures HasMonth(m, k) <==> m[0].month == k || HasMonth(m[1..], k)
  {
    if HasMonth(m[1..], k) {
      var i :| 0 <= i < |m[1..]| && m[1..][i].month == k;
      assert m[i + 1].month == k;
    }
    if HasMonth(m, k) && m[0].month != k {
      var i :| 0 <= i < |m| && m[i].month == k;
      assert m[1..][i - 1].month == k;
    }
  }

  lemma {:induction false} MonthsOf(m: seq<Projection>, month: int)
    ensures Lookup(m, month).Some? <==> HasMonth(m, month)
  {
    if m != [] {
      MonthsOf(m[1..], month);
      HasMonthTail(m, month);
    }
  }

  /** After the dues are added, each month holds exactly the dues of that month, and none is lost. */
  lemma {:induction false} AddDuesSpec(dues: seq<Due>, c: Calendar, k: int)
    ensures DistinctMonths(AddDues([], dues, c))
    ensures Total(AddDues([], dues, c)) == Amounts(dues)
    ensures Lookup(AddDues([], dues, c), k).GetOr(0) == MonthAmounts(dues, k, c)
    ensures Lookup(AddDues([], dues, c), k).Some? <==> exists i :: 0 <= i < |dues| && c.monthOf(dues[i].date) == k
  {
    if dues != [] {
      var init, last := dues[..|dues| - 1], dues[|dues| - 1];
      var month := c.monthOf(last.date);
      AddDuesSpec(init, c, k);
      AddDuesSpec(init, c, month);
      AddSpec(AddDues([], init, c), month, last.amount, k);
      AddKeepsDistinct(AddDues([], init, c), month, last.amount);
      if k == month {
        assert c.monthOf(dues[|dues| - 1].date) == k;
      } else if exists i :: 0 <= i < |dues| && c.monthOf(dues[i].date) == k {
        var i :| 0 <= i < |dues| && c.monthOf(dues[i].date) == k;
        assert c.monthOf(init[i].date) == k;
      }
      if i :| 0 <= i < |init| && c.monthOf(init[i].date) == k {
        assert c.monthOf(dues[i].date) == k;
      }
    }
  }

  lemma {:induction false} AddDuesConcat(m: seq<Projection>, a: seq<Due>, b: seq<Due>, c: Calendar)
    ensures AddDues(m, a + b, c) == AddDues(AddDues(m, a, c), b, c)
  {
    if b == [] {
      assert a + b == a;
    } else {
      assert (a + b)[..|a + b| - 1] == a + b[..|b| - 1];
      AddDuesConcat(m, a, b[..|b| - 1], c);
    }
  }

  // ---------------------------------------------------------------- totals

  function Prices(bookings: seq<Booking>): int {
    if bookings == [] then 0 else Prices(bookings[..|bookings| - 1]) + bookings[|bookings| - 1].price
  }

  function AllCollected(bookings: seq<Booking>): int {
    if bookings == [] then 0 else AllCollected(bookings[..|bookings| - 1]) + Collected(bookings[|bookings| - 1])
  }

  function Balances(bookings: seq<Booking>): int {
    if bookings == [] then 0 else Balances(bookings[..|bookings| - 1]) + Balance(bookings[|bookings| - 1])
  }

  ghost predicate NobodyOverpaid(bookings: seq<Booking>) {
    forall b | b in bookings :: Collected(b) <= b.price
  }

  lemma {:induction false} DuesAddUp(bookings: seq<Booking>, now: int, c: Calendar)
    requires ValidCalendar(c)
    ensures Amounts(AllDues(bookings, now, c)) == Balances(bookings)
  {
    if bookings != [] {
      var init, last := bookings[..|bookings| - 1], bookings[|bookings| - 1];
      DuesAddUp(init, now, c);
      BookingContributesItsBalance(last, now, c);
      AmountsConcat(AllDues(init, now, c), DuesOf(last, now, c));
    }
  }

  /** What is expected is at most what was collected plus what is outstanding, equal iff nobody overpaid. */
  lemma {:induction false} TotalsBalance(bookings: seq<Booking>)
    ensures Prices(bookings) <= AllCollected(bookings) + Balances(bookings)
    ensures Prices(bookings) == AllCollected(bookings) + Balances(bookings) <==> NobodyOverpaid(bookings)
  {
    if bookings != [] {
      var init, last := bookings[..|bookings| - 1], bookings[|bookings| - 1];
      TotalsBalance(init);
      assert bookings == init + [last];
      assert NobodyOverpaid(bookings) <==> NobodyOverpaid(init) && Collected(last) <= last.price;
    }
  }

  // ---------------------------------------------------------------- the projection

  function MonthOf(p: Projection): int {
    p.month
  }

  ghost predicate ByMonth(ps: seq<Projection>) {
    forall i, j | 0 <= i < j < |ps| :: ps[i].month < ps[j].month
  }

  /** The projection holds one line a month, in order, with exactly the dues of that month. */
  ghost predicate Projects(ps: seq<Projection>, dues: seq<Due>, c: Calendar) {
    && ByMonth(ps)
    && (forall i | 0 <= i < |ps| :: ps[i].expectedAmount == MonthAmounts(dues, ps[i].month, c))
    && (forall i | 0 <= i < |dues| :: exists p :: p in ps && p.month == c.monthOf(dues[i].date))
  }

  method GetTreasuryProjection(bookings: seq<Booking>, now: int, c: Calendar)
    returns (totalExpected: int, totalCollected: int, outstandingBalance: int, projections: seq<Projection>)
    requires ValidCalendar(c)
    ensures totalExpected == Prices(bookings) && totalCollected == AllCollected(bookings)
    ensures outstandingBalance == Balances(bookings)
    ensures totalExpected <= totalCollected + outstandingBalance
    ensures totalExpected == totalCollected + outstandingBalance <==> NobodyOverpaid(bookings)
    ensures Projects(projections, AllDues(bookings, now, c), c)
    ensures Total(projections) == outstandingBalance
  {
    hide Instalments, Amounts, MonthAmounts, StableSort;
    totalExpected, totalCollected, outstandingBalance := 0, 0, 0;
    var projectionsMap: seq<Projection> := [];
    for i := 0 to |bookings|
      invariant totalExpected == Prices(bookings[..i]) && totalCollected == AllCollected(bookings[..i])
      invariant outstandingBalance == Balances(bookings[..i])
      invariant projectionsMap == AddDues([], AllDues(bookings[..i], now, c), c)
    {
      var booking := bookings[i];
      assert bookings[..i + 1][..i] == bookings[..i];
      var collected := Sum(booking.payments);
      var balance := Max(0, booking.price - collected);
      totalExpected := totalExpected + booking.price;
      totalCollected := totalCollected + collected;
      outstandingBalance := outstandingBalance + balance;
      AddDuesConcat([], AllDues(bookings[..i], now, c), DuesOf(booking, now, c), c);
      if balance > 0 {
        if Usable(booking.plan) {
          var plan := booking.plan.value;
          projectionsMap := AddInstalments(projectionsMap, balance, plan.nextDeductDate.value, plan.deductAmount.value,
                                           plan.frequency.value, booking.startDate, c);
        } else {
          var dueDate := BalanceDueDate(booking.startDate);
          var effectiveDate := if dueDate < now then now else dueDate;
          assert DuesOf(booking, now, c) == [Due(effectiveDate, balance)];
          assert [Due(effectiveDate, balance)][..0] == [];
          projectionsMap := Add(projectionsMap, c.monthOf(effectiveDate), balance);
        }
      }
    }
    assert bookings[..|bookings|] == bookings;
    projections := StableSort(projectionsMap, MonthOf);
    TotalsBalance(bookings);
    DuesAddUp(bookings, now, c);
    SortedProjects(projectionsMap, AllDues(bookings, now, c), c);
  }

  /** The instalment loop of one booking. */
  method AddInstalments(m: seq<Projection>, balance: int, nextDeductDate: int, deduct: int, frequency: Frequency,
                        departure: int, c: Calendar) returns (r: seq<Projection>)
    requires ValidCalendar(c)
    ensures r == AddDues(m, Instalments(balance, nextDeductDate, deduct, frequency, departure, c), c)
  {
    hide AddDues, Add, Instalments;
    r := m;
    ghost var dues := Instalments(balance, nextDeductDate, deduct, frequency, departure, c);
    ghost var done: seq<Due> := [];
    var currentBalance, currentDate := balance, nextDeductDate;
    AddNone(m, c);
    while currentBalance > 0 && currentDate < departure
      invariant dues == done + Instalments(currentBalance, currentDate, deduct, frequency, departure, c)
      invariant r == AddDues(m, done, c)
      decreases departure - currentDate
    {
      var amountToDeduct := Min(currentBalance, deduct);
      ghost var due := Due(currentDate, amountToDeduct);
      ghost var rest := Instalments(currentBalance - amountToDeduct, Advance(currentDate, frequency, c), deduct,
                                    frequency, departure, c);
      NextInstalment(currentBalance, currentDate, deduct, frequency, departure, c);
      assert done + ([due] + rest) == (done + [due]) + rest;
      AddOne(m, done, due, c);
      r := Add(r, c.monthOf(currentDate), amountToDeduct);
      done := done + [due];
      currentBalance := currentBalance - amountToDeduct;
      currentDate := Advance(currentDate, frequency, c);
    }
    LastInstalment(currentBalance, currentDate, deduct, frequency, departure, c);
    if currentBalance > 0 {
      AddOne(m, done, Due(departure, currentBalance), c);
      assert dues == done + [Due(departure, currentBalance)];
      r := Add(r, c.monthOf(departure), currentBalance);
    } else {
      assert dues == done;
    }
  }

  lemma NextInstalment(balance: int, date: int, deduct: int, frequency: Frequency, departure: int, c: Calendar)
    requires ValidCalendar(c) && balance > 0 && date < departure
    ensures Instalments(balance, date, deduct, frequency, departure, c) ==
            [Due(date, Min(balance, deduct))] +
            Instalments(balance - Min(balance, deduct), Advance(date, frequency, c), deduct, frequency, departure, c)
  {
  }

  lemma LastInstalment(balance: int, date: int, deduct: int, frequency: Frequency, departure: int, c: Calendar)
    requires ValidCalendar(c) && (balance <= 0 || date >= departure)
    ensures Instalments(balance, date, deduct, frequency, departure, c) ==
            if balance > 0 then [Due(departure, balance)] else []
  {
  }

  lemma AddNone(m: seq<Projection>, c: Calendar)
    ensures AddDues(m, [], c) == m
  {
  }

  lemma AddOne(m: seq<Projection>, dues: seq<Due>, d: Due, c: Calendar)
    ensures AddDues(m, dues + [d], c) == Add(AddDues(m, dues, c), c.monthOf(d.date), d.amount)
  {
    assert (dues + [d])[..|dues|] == dues;
  }

  lemma SortedProjects(m: seq<Projection>, dues: seq<Due>, c: Calendar)
    requires m == AddDues([], dues, c)
    ensures Projects(StableSort(m, MonthOf), dues, c)
    ensures Total(StableSort(m, MonthOf)) == Amounts(dues)
  {
    hide StableSort, AddDues, MonthAmounts, Amounts, Lookup;
    var ps := StableSort(m, MonthOf);
    SortedPermutation(m, MonthOf);
    SameElements(m, MonthOf);
    SortKeepsSum(m, MonthOf, AmountOf);
    AddDuesSpec(dues, c, 0);
    forall i, j | 0 <= i < j < |ps| ensures ps[i].month < ps[j].month {
      assert MonthOf(ps[i]) <= MonthOf(ps[j]);
      MonthsOncePlaced(m, ps, i, j);
    }
    forall i | 0 <= i < |ps| ensures ps[i].expectedAmount == MonthAmounts(dues, ps[i].month, c) {
      assert ps[i] in m;
      var k :| 0 <= k < |m| && m[k] == ps[i];
      LookupEntry(m, k);
      AddDuesSpec(dues, c, ps[i].month);
    }
    forall i | 0 <= i < |dues| ensures exists p :: p in ps && p.month == c.monthOf(dues[i].date) {
      AddDuesSpec(dues, c, c.monthOf(dues[i].date));
      MonthsOf(m, c.monthOf(dues[i].date));
      var k :| 0 <= k < |m| && m[k].month == c.monthOf(dues[i].date);
      assert m[k] in ps;
    }
  }

  /** A permutation of lines with distinct months has distinct months. */
  lemma MonthsOncePlaced(m: seq<Projection>, ps: seq<Projection>, i: nat, j: nat)
    requires DistinctMonths(m) && multiset(ps) == multiset(m) && i < j < |ps|
    ensures ps[i].month != ps[j].month
  {
    assert ps[i] in multiset(m) && ps[j] in multiset(m);
    var k :| 0 <= k < |m| && m[k] == ps[i];
    var l :| 0 <= l < |m| && m[l] == ps[j];
    EntriesCountOnce(m, ps[j]);
    CountsGiveDistinct(ps, i, j);
  }

  lemma {:induction false} EntriesCountOnce(m: seq<Projection>, p: Projection)
    requires DistinctMonths(m)
    ensures multiset(m)[p] <= 1
  {
    if m != [] {
      assert m == [m[0]] + m[1..];
      assert DistinctMonths(m[1..]);
      EntriesCountOnce(m[1..], p);
      if m[0] == p {
        forall i | 0 <= i < |m[1..]| ensures m[1..][i] != p {
          assert m[i + 1].month != m[0].month;
        }
        assert p !in m[1..];
      }
    }
  }
}
