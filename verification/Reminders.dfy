/**
 * Preventive payment reminders, run once a day: 14 days, 7 days and 1 day before the balance is due.
 * The database query only reads a window of departures; the loop then tests the exact day.
 */
module Reminders {
  import opened Basics
  import Treasury

  const BALANCE_REMINDER_OFFSETS_DAYS: set<int> := {14, 7, 1}
  const MAX_OFFSET: int := 14

  /** A booking with its package's departure and price, and its succeeded payments. */
  datatype Booking = Booking(pilgrimId: string, status: BookingStatus, startDate: int, price: int, payments: seq<int>)

  /** Calendar days, in UTC, from one instant to another. */
  function DaysBetween(from: int, to: int): int {
    to / JOUR_MS - from / JOUR_MS
  }

  function DueDay(b: Booking): int {
    Treasury.BalanceDueDate(b.startDate) / JOUR_MS
  }

  function Remaining(b: Booking): int {
    b.price - Sum(b.payments)
  }

  predicate ActiveStatus(s: BookingStatus) {
    s == PendingPayment || s == Confirmed
  }

  /** The condition of the query. */
  predicate Selected(b: Booking, now: int) {
    var windowStart := now + Treasury.BALANCE_DUE_DAYS_BEFORE_DEPARTURE * JOUR_MS;
    ActiveStatus(b.status) && windowStart <= b.startDate < windowStart + (MAX_OFFSET + 1) * JOUR_MS
  }

  /** A reminder is owed: stated without the window. */
  predicate Owed(b: Booking, now: int) {
    && ActiveStatus(b.status)
    && DueDay(b) - now / JOUR_MS in BALANCE_REMINDER_OFFSETS_DAYS
    && Remaining(b) > 0
  }

  function Query(bookings: seq<Booking>, now: int): seq<Booking> {
    if bookings == [] then []
    else
      var last := bookings[|bookings| - 1];
      Query(bookings[..|bookings| - 1], now) + if Selected(last, now) then [last] else []
  }

  /** Who receives a reminder, in order; `unreachable` are the pilgrims whose notification fails. */
  function Recipients(bookings: seq<Booking>, now: int, unreachable: set<string>): seq<string> {
    if bookings == [] then []
    else
      var last := bookings[|bookings| - 1];
      Recipients(bookings[..|bookings| - 1], now, unreachable) +
      if Owed(last, now) && last.pilgrimId !in unreachable then [last.pilgrimId] else []
  }

  /** No booking that is owed a reminder is outside the window. */
  lemma OwedIsSelected(b: Booking, now: int)
    requires Owed(b, now)
    ensures Selected(b, now)
  {
    var due := Treasury.BalanceDueDate(b.startDate);
    assert due / JOUR_MS - now / JOUR_MS <= 14;
    assert due / JOUR_MS - now / JOUR_MS >= 1;
    assert due == JOUR_MS * (due / JOUR_MS) + due % JOUR_MS;
    assert now == JOUR_MS * (now / JOUR_MS) + now % JOUR_MS;
  }

  lemma {:induction false} WindowLosesNobody(bookings: seq<Booking>, now: int, unreachable: set<string>)
    ensures Recipients(Query(bookings, now), now, unreachable) == Recipients(bookings, now, unreachable)
  {
    if bookings != [] {
      var before, last := bookings[..|bookings| - 1], bookings[|bookings| - 1];
      WindowLosesNobody(before, now, unreachable);
      hide Owed, Selected;
      if Selected(last, now) {
        assert Query(bookings, now)[..|Query(before, now)|] == Query(before, now);
      } else {
        assert Query(bookings, now) == Query(before, now);
        if Owed(last, now) {
          OwedIsSelected(last, now);
        }
      }
    }
  }

  method SendPreventiveReminders(bookings: seq<Booking>, now: int, unreachable: set<string>)
    returns (sent: nat, recipients: seq<string>)
    ensures recipients == Recipients(bookings, now, unreachable) && sent == |recipients|
  {
    var selected := Query(bookings, now);
    sent, recipients := 0, [];
    for i := 0 to |selected|
      invariant recipients == Recipients(selected[..i], now, unreachable) && sent == |recipients|
    {
      var booking := selected[i];
      assert selected[..i + 1][..i] == selected[..i];
      SelectedAreActive(bookings, now, i);
      var dueDate := Treasury.BalanceDueDate(booking.startDate);
      var daysLeft := DaysBetween(now, dueDate);
      if daysLeft !in BALANCE_REMINDER_OFFSETS_DAYS {
        continue;
      }
      var balance := booking.price - Sum(booking.payments);
      if balance <= 0 {
        continue;
      }
      if booking.pilgrimId !in unreachable {
        recipients := recipients + [booking.pilgrimId];
        sent := sent + 1;
      }
    }
    assert selected[..|selected|] == selected;
    WindowLosesNobody(bookings, now, unreachable);
  }

  lemma {:induction false} SelectedAreActive(bookings: seq<Booking>, now: int, i: nat)
    requires i < |Query(bookings, now)|
    ensures Query(bookings, now)[i] in bookings && Selected(Query(bookings, now)[i], now)
  {
    var before := bookings[..|bookings| - 1];
    if i < |Query(before, now)| {
      SelectedAreActive(before, now, i);
    }
  }

  // ---------------------------------------------------------------- daily runs

  /** One run a day: the run `i` happens some time in the day `first + i`. */
  ghost predicate Daily(runs: seq<int>, first: int) {
    forall i | 0 <= i < |runs| :: runs[i] / JOUR_MS == first + i
  }

  /** How many of the runs owe a reminder to the booking. */
  function TimesOwed(b: Booking, runs: seq<int>): nat {
    if runs == [] then 0
    else TimesOwed(b, runs[..|runs| - 1]) + if Owed(b, runs[|runs| - 1]) then 1 else 0
  }

  /** The days, in UTC, on which the balance of a booking is 14, 7 and 1 days from falling due, thirty days before departure. */
  function ReminderDay(b: Booking, offset: int): int {
    (b.startDate - 30 * 86_400_000) / 86_400_000 - offset
  }

  function Included(day: int, first: int, n: nat): nat {
    if first <= day < first + n then 1 else 0
  }

  /**
   * Over one run a day, a booking that is neither cancelled nor completed and not fully paid is owed one reminder
   * for each of the three days the runs include, none skipped or repeated; any other booking is owed none.
   */
  lemma {:induction false} OneReminderPerOffset(b: Booking, runs: seq<int>, first: int)
    requires Daily(runs, first)
    ensures TimesOwed(b, runs) ==
            if b.status != Cancelled && b.status != Completed && Sum(b.payments) < b.price
            then Included(ReminderDay(b, 14), first, |runs|) + Included(ReminderDay(b, 7), first, |runs|) +
                 Included(ReminderDay(b, 1), first, |runs|)
            else 0
  {
    if runs != [] {
      var n := |runs| - 1;
      OneReminderPerOffset(b, runs[..n], first);
      var today := runs[n] / JOUR_MS;
      assert today == first + n;
      var due := DueDay(b);
      assert ReminderDay(b, 0) == due;
      assert Owed(b, runs[n]) <==>
             b.status != Cancelled && b.status != Completed && Sum(b.payments) < b.price && due - today in {14, 7, 1};
      hide Sum, DueDay, Owed;
    }
  }
}
