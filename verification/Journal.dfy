/**
 * Accounting journal: the collections and refunds of an agency over a range of days, one entry each,
 * in order of their date. Days are numbered, amounts are integer cents.
 */
module Journal {
  import opened Basics
  import opened Sorting

  const PERIODE_MAX_JOURS: int := 366
  const DEVISE_PAR_DEFAUT := "GNF"

  datatype Payment = Payment(id: string, amount: int, currency: string, installmentNumber: nat,
                             receiptRef: Option<string>, confirmedAt: Option<int>,
                             refundedAt: Option<int>, refundedAmount: Option<int>)

  datatype Kind = ENC | REM

  /** `payment` stands for the columns an entry copies from its payment. */
  datatype Entry = Entry(payment: Payment, date: int, journal: Kind, pieceRef: string, debit: int, credit: int)

  datatype PeriodError = StartAfterEnd | TooLong

  datatype Export = Export(from: int, to: int, currency: string, totalCollected: int, totalRefunded: int, net: int,
                           entries: seq<Entry>)

  predicate Within(instant: Option<int>, debut: int, fin: int) {
    instant.Some? && debut <= instant.value < fin
  }

  /** A refund of zero is not an entry: the source tests the amount for truth. */
  predicate RefundedWithin(p: Payment, debut: int, fin: int) {
    Within(p.refundedAt, debut, fin) && p.refundedAmount.Some? && p.refundedAmount.value != 0
  }

  function Collection(p: Payment): Entry
    requires p.confirmedAt.Some?
  {
    Entry(p, p.confirmedAt.value, ENC, p.receiptRef.GetOr("RCPT-" + p.id), p.amount, 0)
  }

  function Refund(p: Payment): Entry
    requires p.refundedAt.Some? && p.refundedAmount.Some?
  {
    Entry(p, p.refundedAt.value, REM, "REMB-" + p.id, 0, p.refundedAmount.value)
  }

  /** What one payment writes in the journal of [debut, fin[. */
  function EntriesOf(p: Payment, debut: int, fin: int): seq<Entry> {
    (if Within(p.confirmedAt, debut, fin) then [Collection(p)] else []) +
    (if RefundedWithin(p, debut, fin) then [Refund(p)] else [])
  }

  function Entries(rows: seq<Payment>, debut: int, fin: int): seq<Entry> {
    if rows == [] then []
    else Entries(rows[..|rows| - 1], debut, fin) + EntriesOf(rows[|rows| - 1], debut, fin)
  }

  function DateOf(e: Entry): int {
    e.date
  }

  function Journal(rows: seq<Payment>, debut: int, fin: int): seq<Entry> {
    StableSort(Entries(rows, debut, fin), DateOf)
  }

  // ---------------------------------------------------------------- additivity

  lemma {:induction false} EntriesSplit(rows: seq<Payment>, a: int, b: int, c: int)
    requires a <= b <= c
    ensures Below(Entries(rows, a, c), DateOf, b) == Entries(rows, a, b)
    ensures From(Entries(rows, a, c), DateOf, b) == Entries(rows, b, c)
  {
    if rows != [] {
      var p := rows[|rows| - 1];
      EntriesSplit(rows[..|rows| - 1], a, b, c);
      BelowFromConcat(Entries(rows[..|rows| - 1], a, c), EntriesOf(p, a, c), DateOf, b);
      EntriesOfSplit(p, a, b, c);
    }
  }

  lemma EntriesOfSplit(p: Payment, a: int, b: int, c: int)
    requires a <= b <= c
    ensures Below(EntriesOf(p, a, c), DateOf, b) == EntriesOf(p, a, b)
    ensures From(EntriesOf(p, a, c), DateOf, b) == EntriesOf(p, b, c)
  {
    var enc := if Within(p.confirmedAt, a, c) then [Collection(p)] else [];
    var rem := if RefundedWithin(p, a, c) then [Refund(p)] else [];
    BelowFromConcat(enc, rem, DateOf, b);
    assert Below(enc, DateOf, b) == if Within(p.confirmedAt, a, b) then [Collection(p)] else [];
    assert From(enc, DateOf, b) == if Within(p.confirmedAt, b, c) then [Collection(p)] else [];
  }

  /** The journal of a range is the journal of its first part followed by the journal of the rest. */
  lemma JournalIsAdditive(rows: seq<Payment>, a: int, b: int, c: int)
    requires a <= b <= c
    ensures Journal(rows, a, c) == Journal(rows, a, b) + Journal(rows, b, c)
  {
    hide StableSort, Entries;
    EntriesSplit(rows, a, b, c);
    SortSplits(Entries(rows, a, c), DateOf, b);
  }

  /** The journals of consecutive ranges, one after the other. */
  function Journals(rows: seq<Payment>, cuts: seq<int>): seq<Entry> {
    if |cuts| <= 1 then []
    else Journals(rows, cuts[..|cuts| - 1]) + Journal(rows, cuts[|cuts| - 2], cuts[|cuts| - 1])
  }

  /** However a range is cut, its parts put end to end are the journal of the whole. */
  lemma {:induction false} AnyCutting(rows: seq<Payment>, cuts: seq<int>)
    requires |cuts| >= 1 && forall i, j | 0 <= i < j < |cuts| :: cuts[i] <= cuts[j]
    ensures Journals(rows, cuts) == Journal(rows, cuts[0], cuts[|cuts| - 1])
  {
    hide Journal;
    var last := |cuts| - 1;
    if last == 0 {
      EmptyRange(rows, cuts[0]);
    } else {
      AnyCutting(rows, cuts[..last]);
      JournalIsAdditive(rows, cuts[0], cuts[last - 1], cuts[last]);
    }
  }

  lemma {:induction false} NoEntries(rows: seq<Payment>, a: int)
    ensures Entries(rows, a, a) == []
  {
    if rows != [] {
      NoEntries(rows[..|rows| - 1], a);
    }
  }

  lemma EmptyRange(rows: seq<Payment>, a: int)
    ensures Journal(rows, a, a) == []
  {
    NoEntries(rows, a);
  }

  // ---------------------------------------------------------------- contents and totals

  /** The journal lists, in date order, exactly what the payments of the table wrote in the range. */
  lemma JournalLists(rows: seq<Payment>, debut: int, fin: int)
    ensures Sorted(Journal(rows, debut, fin), DateOf)
    ensures multiset(Journal(rows, debut, fin)) == multiset(Entries(rows, debut, fin))
    ensures forall k :: Class(Journal(rows, debut, fin), DateOf, k) == Class(Entries(rows, debut, fin), DateOf, k)
  {
    hide StableSort, Entries, Class;
    SortedPermutation(Entries(rows, debut, fin), DateOf);
    forall k ensures Class(Journal(rows, debut, fin), DateOf, k) == Class(Entries(rows, debut, fin), DateOf, k) {
      Stability(Entries(rows, debut, fin), DateOf, k);
    }
  }

  /** What an entry says, and of which payment. */
  ghost predicate Records(e: Entry, p: Payment, debut: int, fin: int) {
    && e.payment == p && debut <= e.date < fin
    && ((e.journal == ENC && p.confirmedAt == Some(e.date) && e.debit == p.amount && e.credit == 0 &&
         e.pieceRef == (match p.receiptRef case Some(ref) => ref case None => "RCPT-" + p.id))
     || (e.journal == REM && p.refundedAt == Some(e.date) && p.refundedAmount == Some(e.credit) && e.credit != 0 &&
         e.debit == 0 && e.pieceRef == "REMB-" + p.id))
  }

  lemma {:induction false} EntriesRecord(rows: seq<Payment>, debut: int, fin: int, e: Entry)
    ensures e in Entries(rows, debut, fin) <==> exists p :: p in rows && Records(e, p, debut, fin)
  {
    if rows != [] {
      var init, p := rows[..|rows| - 1], rows[|rows| - 1];
      assert rows == init + [p];
      EntriesRecord(init, debut, fin, e);
      assert e in EntriesOf(p, debut, fin) <==> Records(e, p, debut, fin);
      hide EntriesOf, Records;
    }
  }

  /**
   * An entry is in the journal of a range exactly when it records a collection confirmed or a refund made in it:
   * with its date, its amount on its side, and its voucher.
   */
  lemma JournalRecords(rows: seq<Payment>, debut: int, fin: int, e: Entry)
    ensures e in Journal(rows, debut, fin) <==> exists p :: p in rows && Records(e, p, debut, fin)
  {
    EntriesRecord(rows, debut, fin, e);
    SameElements(Entries(rows, debut, fin), DateOf);
    hide StableSort, Entries, Records;
  }

  function Debit(e: Entry): int {
    e.debit
  }

  function Credit(e: Entry): int {
    e.credit
  }

  /** Payments confirmed in the range. */
  function CollectedIn(rows: seq<Payment>, debut: int, fin: int): int {
    if rows == [] then 0
    else CollectedIn(rows[..|rows| - 1], debut, fin) +
         (if Within(rows[|rows| - 1].confirmedAt, debut, fin) then rows[|rows| - 1].amount else 0)
  }

  /** Amounts refunded in the range, whenever their payment was collected. */
  function RefundedIn(rows: seq<Payment>, debut: int, fin: int): int {
    if rows == [] then 0
    else RefundedIn(rows[..|rows| - 1], debut, fin) +
         (if Within(rows[|rows| - 1].refundedAt, debut, fin) then rows[|rows| - 1].refundedAmount.GetOr(0) else 0)
  }

  lemma {:induction false} EntriesTotals(rows: seq<Payment>, debut: int, fin: int)
    ensures SumOf(Entries(rows, debut, fin), Debit) == CollectedIn(rows, debut, fin)
    ensures SumOf(Entries(rows, debut, fin), Credit) == RefundedIn(rows, debut, fin)
  {
    if rows != [] {
      var p := rows[|rows| - 1];
      EntriesTotals(rows[..|rows| - 1], debut, fin);
      SumOfConcat(Entries(rows[..|rows| - 1], debut, fin), EntriesOf(p, debut, fin), Debit);
      SumOfConcat(Entries(rows[..|rows| - 1], debut, fin), EntriesOf(p, debut, fin), Credit);
      EntriesOfTotals(p, debut, fin);
    }
  }

  lemma EntriesOfTotals(p: Payment, debut: int, fin: int)
    ensures SumOf(EntriesOf(p, debut, fin), Debit) == if Within(p.confirmedAt, debut, fin) then p.amount else 0
    ensures SumOf(EntriesOf(p, debut, fin), Credit) ==
            if Within(p.refundedAt, debut, fin) then p.refundedAmount.GetOr(0) else 0
  {
    var enc := if Within(p.confirmedAt, debut, fin) then [Collection(p)] else [];
    var rem := if RefundedWithin(p, debut, fin) then [Refund(p)] else [];
    SumOfConcat(enc, rem, Debit);
    SumOfConcat(enc, rem, Credit);
  }

  // ---------------------------------------------------------------- the export

  /** The range asked for, or the current month up to today; at most a year and a day. */
  function Periode(from: Option<int>, to: Option<int>, firstOfMonth: int, today: int): Result<(int, int), PeriodError> {
    var (f, t) := (from.GetOr(firstOfMonth), to.GetOr(today));
    if t - f < 0 then Err(StartAfterEnd)
    else if t - f >= PERIODE_MAX_JOURS then Err(TooLong)
    else Ok((f, t))
  }

  function Debut(from: int): int {
    from * JOUR_MS
  }

  /** Midnight after the last day. */
  function FinExclue(to: int): int {
    (to + 1) * JOUR_MS
  }

  /**
   * The bounds asked for, each replaced by default when it is missing: refused when they are reversed or when
   * there are more than 366 days from the first to the last, both included.
   */
  lemma PeriodeAnswers(from: Option<int>, to: Option<int>, firstOfMonth: int, today: int)
    ensures var first := match from case Some(d) => d case None => firstOfMonth;
            var last := match to case Some(d) => d case None => today;
            var r := Periode(from, to, firstOfMonth, today);
            && (r == Ok((first, last)) <==> first <= last <= first + 365)
            && (r == Err(StartAfterEnd) <==> last < first)
            && (r == Err(TooLong) <==> last > first + 365)
  {
  }

  /** The range of a period is its days, from the midnight of the first to that after the last. */
  lemma RangeIsDays(from: int, to: int, t: int)
    ensures Debut(from) <= t < FinExclue(to) <==> from <= t / 86_400_000 <= to
  {
  }

  /** The database filter: payments confirmed or refunded in the range. */
  function Touched(rows: seq<Payment>, debut: int, fin: int): seq<Payment> {
    if rows == [] then []
    else Touched(rows[..|rows| - 1], debut, fin) +
         (if Within(rows[|rows| - 1].confirmedAt, debut, fin) || Within(rows[|rows| - 1].refundedAt, debut, fin)
          then [rows[|rows| - 1]] else [])
  }

  /** Payments the filter leaves out would have written nothing. */
  lemma {:induction false} FilterLosesNothing(rows: seq<Payment>, debut: int, fin: int)
    ensures Entries(Touched(rows, debut, fin), debut, fin) == Entries(rows, debut, fin)
  {
    if rows != [] {
      var init, p := rows[..|rows| - 1], rows[|rows| - 1];
      FilterLosesNothing(init, debut, fin);
      var kept := Touched(init, debut, fin);
      if Within(p.confirmedAt, debut, fin) || Within(p.refundedAt, debut, fin) {
        assert (kept + [p])[..|kept + [p]| - 1] == kept;
      } else {
        assert EntriesOf(p, debut, fin) == [] && Touched(rows, debut, fin) == kept;
      }
    }
  }

  method GetJournal(rows: seq<Payment>, from: Option<int>, to: Option<int>, firstOfMonth: int, today: int)
    returns (r: Result<Export, PeriodError>)
    ensures r.Err? <==> Periode(from, to, firstOfMonth, today).Err?
    ensures r.Ok? ==> (r.value.from, r.value.to) == Periode(from, to, firstOfMonth, today).value
    ensures r.Ok? ==> r.value.entries == Journal(rows, Debut(r.value.from), FinExclue(r.value.to))
    ensures r.Ok? ==> r.value.totalCollected == CollectedIn(rows, Debut(r.value.from), FinExclue(r.value.to))
    ensures r.Ok? ==> r.value.totalRefunded == RefundedIn(rows, Debut(r.value.from), FinExclue(r.value.to))
    ensures r.Ok? ==> r.value.net == r.value.totalCollected - r.value.totalRefunded
    ensures r.Ok? ==> r.value.currency == if r.value.entries == [] then DEVISE_PAR_DEFAUT
                                          else r.value.entries[0].payment.currency
  {
    hide StableSort, Touched;
    match Periode(from, to, firstOfMonth, today)
    case Err(e) => r := Err(e);
    case Ok((f, t)) =>
      var debut, finExclue := Debut(f), FinExclue(t);
      var paiements := Touched(rows, debut, finExclue);
      var entries: seq<Entry> := [];
      for i := 0 to |paiements|
        invariant entries == Entries(paiements[..i], debut, finExclue)
      {
        var p := paiements[i];
        ghost var before := entries;
        assert paiements[..i + 1][..i] == paiements[..i];
        if p.confirmedAt.Some? && p.confirmedAt.value >= debut && p.confirmedAt.value < finExclue {
          entries := entries + [Entry(p, p.confirmedAt.value, ENC, p.receiptRef.GetOr("RCPT-" + p.id), p.amount, 0)];
        }
        if p.refundedAt.Some? && p.refundedAmount.Some? && p.refundedAmount.value != 0
           && p.refundedAt.value >= debut && p.refundedAt.value < finExclue {
          entries := entries + [Entry(p, p.refundedAt.value, REM, "REMB-" + p.id, 0, p.refundedAmount.value)];
        }
        assert entries == before + EntriesOf(p, debut, finExclue);
      }
      assert paiements[..|paiements|] == paiements;
      FilterLosesNothing(rows, debut, finExclue);
      EntriesTotals(rows, debut, finExclue);
      var sorted := StableSort(entries, DateOf);
      SortKeepsSum(entries, DateOf, Debit);
      SortKeepsSum(entries, DateOf, Credit);
      var collected, refunded := SumOf(sorted, Debit), SumOf(sorted, Credit);
      r := Ok(Export(f, t, if |sorted| > 0 then sorted[0].payment.currency else DEVISE_PAR_DEFAUT,
                     collected, refunded, collected - refunded, sorted));
  }

  /** Exports of adjacent ranges of days put end to end are the export of the whole, totals included. */
  lemma ExportsAddUp(rows: seq<Payment>, from: int, mid: int, to: int)
    requires from <= mid < to
    ensures Journal(rows, Debut(from), FinExclue(to)) ==
            Journal(rows, Debut(from), FinExclue(mid)) + Journal(rows, Debut(mid + 1), FinExclue(to))
    ensures CollectedIn(rows, Debut(from), FinExclue(to)) ==
            CollectedIn(rows, Debut(from), FinExclue(mid)) + CollectedIn(rows, Debut(mid + 1), FinExclue(to))
    ensures RefundedIn(rows, Debut(from), FinExclue(to)) ==
            RefundedIn(rows, Debut(from), FinExclue(mid)) + RefundedIn(rows, Debut(mid + 1), FinExclue(to))
  {
    hide Journal;
    JournalIsAdditive(rows, Debut(from), FinExclue(mid), FinExclue(to));
    TotalsSplit(rows, Debut(from), FinExclue(mid), FinExclue(to));
  }

  lemma {:induction false} TotalsSplit(rows: seq<Payment>, a: int, b: int, c: int)
    requires a <= b <= c
    ensures CollectedIn(rows, a, c) == CollectedIn(rows, a, b) + CollectedIn(rows, b, c)
    ensures RefundedIn(rows, a, c) == RefundedIn(rows, a, b) + RefundedIn(rows, b, c)
  {
    if rows != [] {
      TotalsSplit(rows[..|rows| - 1], a, b, c);
    }
  }
}
