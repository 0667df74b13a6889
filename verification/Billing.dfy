/**
 * Invoice numbering. `emettre` locks the row of the agency, reads the highest sequence of the year,
 * inserts the next one and commits; a duplicate key aborts it and the caller reads the invoice again.
 * Requests are split into these steps and interleaved in any way.
 */
module Billing {
  import opened Basics

  datatype Invoice = Invoice(agency: string, booking: string, year: nat, sequence: nat, number: string, amount: int)

  // ---------------------------------------------------------------- invoice numbers

  function Digit(d: nat): char
    requires d < 10
  {
    "0123456789"[d]
  }

  function Decimal(n: nat): string {
    if n < 10 then [Digit(n)] else Decimal(n / 10) + [Digit(n % 10)]
  }

  function Zeros(n: nat): string {
    if n == 0 then "" else "0" + Zeros(n - 1)
  }

  function PadStart(s: string, width: nat): string {
    if |s| < width then Zeros(width - |s|) + s else s
  }

  /** FAC-2026-00042 */
  function NumeroFacture(annee: nat, sequence: nat): string {
    "FAC-" + Decimal(annee) + "-" + PadStart(Decimal(sequence), 5)
  }

  /** The number written in decimal digits, leading zeros allowed. */
  function ValueOf(s: string): nat {
    if s == "" then 0
    else 10 * ValueOf(s[..|s| - 1]) +
         (if IsDigit(s[|s| - 1]) then s[|s| - 1] as int - '0' as int else 0)
  }

  function UntilDash(s: string): nat {
    if s == "" || s[0] == '-' then 0 else 1 + UntilDash(s[1..])
  }

  /** Reads the year and the sequence back from an invoice number. */
  function ReadNumero(number: string): (nat, nat) {
    var s := if |number| >= 4 then number[4..] else "";
    var dash := UntilDash(s);
    if dash < |s| then (ValueOf(s[..dash]), ValueOf(s[dash + 1..])) else (ValueOf(s), 0)
  }

  lemma {:induction false} DecimalReads(n: nat)
    ensures ValueOf(Decimal(n)) == n
    ensures forall i | 0 <= i < |Decimal(n)| :: IsDigit(Decimal(n)[i])
  {
    if n < 10 {
      assert Decimal(n)[..0] == "";
    } else {
      DecimalReads(n / 10);
      assert 10 * (n / 10) + n % 10 == n;
      assert Decimal(n)[..|Decimal(n)| - 1] == Decimal(n / 10);
    }
  }

  lemma {:induction false} LeadingZeros(n: nat, s: string)
    ensures ValueOf(Zeros(n) + s) == ValueOf(s)
    decreases |s|, n
  {
    if s == "" {
      assert Zeros(n) + s == Zeros(n);
      OnlyZeros(n);
    } else {
      assert (Zeros(n) + s)[..|Zeros(n) + s| - 1] == Zeros(n) + s[..|s| - 1];
      LeadingZeros(n, s[..|s| - 1]);
    }
  }

  lemma {:induction false} ZerosSnoc(n: nat)
    requires n > 0
    ensures Zeros(n) == Zeros(n - 1) + "0"
  {
    if n > 1 {
      ZerosSnoc(n - 1);
      assert "0" + (Zeros(n - 2) + "0") == ("0" + Zeros(n - 2)) + "0";
    }
  }

  lemma {:induction false} OnlyZeros(n: nat)
    ensures ValueOf(Zeros(n)) == 0
  {
    if n > 0 {
      OnlyZeros(n - 1);
      ZerosSnoc(n);
      var z := Zeros(n);
      assert z[..|z| - 1] == Zeros(n - 1) && z[|z| - 1] == '0';
    }
  }

  lemma {:induction false} DashAfterDigits(digits: string, rest: string)
    requires forall i | 0 <= i < |digits| :: IsDigit(digits[i])
    ensures UntilDash(digits + "-" + rest) == |digits|
  {
    var s := digits + "-" + rest;
    if digits != "" {
      assert s[0] == digits[0] && s[1..] == digits[1..] + "-" + rest;
      DashAfterDigits(digits[1..], rest);
    }
  }

  /** The year and the sequence can be read back from the number: numbering is injective. */
  lemma NumeroRoundTrip(annee: nat, sequence: nat)
    ensures ReadNumero(NumeroFacture(annee, sequence)) == (annee, sequence)
  {
    hide Decimal, ValueOf, Zeros, UntilDash;
    var year, seq' := Decimal(annee), PadStart(Decimal(sequence), 5);
    var s := NumeroFacture(annee, sequence)[4..];
    assert s == year + "-" + seq';
    DecimalReads(annee);
    DecimalReads(sequence);
    DashAfterDigits(year, seq');
    assert s[..|year|] == year && s[|year| + 1..] == seq';
    if |Decimal(sequence)| < 5 {
      LeadingZeros(5 - |Decimal(sequence)|, Decimal(sequence));
    }
  }

  // ---------------------------------------------------------------- the protocol

  /** How far a request has got. A request that found an invoice at once has answered. */
  datatype Txn =
    | Waiting(booking: string, year: nat, amount: int)
    | Locked(booking: string, year: nat, amount: int)
    | Numbered(booking: string, year: nat, amount: int, sequence: nat)
    | Inserted(row: Invoice)
    | Rereading(booking: string)

  /** What a request for a booking got back; `None` is the `NotFoundException` after the second read. */
  datatype Answer = Answer(booking: string, invoice: Option<Invoice>)

  /** Committed invoices in commit order, agency locks, requests in progress, and answers given. */
  datatype Db = Db(agencyOf: map<string, string>, rows: seq<Invoice>, locks: map<string, nat>, txns: map<nat, Txn>,
                   answers: map<nat, Answer>)

  datatype Step =
    | Request(t: nat, booking: string, year: nat, amount: int)
    | TakeLock(t: nat)
    | ReadMax(t: nat)
    | Insert(t: nat)
    | Commit(t: nat)
    | Crash(t: nat)
    | Reread(t: nat)

  function BookingOf(x: Txn): string {
    match x
    case Inserted(row) => row.booking
    case _ => x.booking
  }

  function Find(rows: seq<Invoice>, booking: string): Option<Invoice> {
    if rows == [] then None
    else if rows[|rows| - 1].booking == booking then Some(rows[|rows| - 1])
    else Find(rows[..|rows| - 1], booking)
  }

  /** The sequences issued by an agency for a year, in commit order. */
  function Sequences(rows: seq<Invoice>, agency: string, year: nat): seq<nat> {
    if rows == [] then []
    else Sequences(rows[..|rows| - 1], agency, year) +
         (if rows[|rows| - 1].agency == agency && rows[|rows| - 1].year == year then [rows[|rows| - 1].sequence] else [])
  }

  /** `_max: { sequence }`, zero when there is none. */
  function MaxOf(xs: seq<nat>): nat {
    if xs == [] then 0
    else var m := MaxOf(xs[..|xs| - 1]); if xs[|xs| - 1] > m then xs[|xs| - 1] else m
  }

  /** Unique keys: `bookingId`, and `(agencyId, year, sequence)`. */
  predicate ViolatesKey(rows: seq<Invoice>, row: Invoice) {
    exists i :: 0 <= i < |rows| && (rows[i].booking == row.booking ||
                                    (rows[i].agency == row.agency && rows[i].year == row.year && rows[i].sequence == row.sequence))
  }

  function Unlock(s: Db, t: nat): map<string, nat> {
    map a | a in s.locks && s.locks[a] != t :: s.locks[a]
  }

  /** One step; a step that is not enabled changes nothing. */
  function Next(s: Db, step: Step): Db {
    match step
    case Request(t, booking, year, amount) =>
      if t in s.txns || t in s.answers || booking !in s.agencyOf then s
      else if Find(s.rows, booking).Some? then s.(answers := s.answers[t := Answer(booking, Find(s.rows, booking))])
      else s.(txns := s.txns[t := Waiting(booking, year, amount)])
    case TakeLock(t) =>
      if t in s.txns && s.txns[t].Waiting? && s.txns[t].booking in s.agencyOf && s.agencyOf[s.txns[t].booking] !in s.locks
      then var x := s.txns[t];
           s.(locks := s.locks[s.agencyOf[x.booking] := t], txns := s.txns[t := Locked(x.booking, x.year, x.amount)])
      else s
    case ReadMax(t) =>
      if t in s.txns && s.txns[t].Locked? && s.txns[t].booking in s.agencyOf
      then var x := s.txns[t];
           var sequence := MaxOf(Sequences(s.rows, s.agencyOf[x.booking], x.year)) + 1;
           s.(txns := s.txns[t := Numbered(x.booking, x.year, x.amount, sequence)])
      else s
    case Insert(t) =>
      if t in s.txns && s.txns[t].Numbered? && s.txns[t].booking in s.agencyOf
      then var x := s.txns[t];
           var row := Invoice(s.agencyOf[x.booking], x.booking, x.year, x.sequence,
                              NumeroFacture(x.year, x.sequence), x.amount);
           if ViolatesKey(s.rows, row)
           then s.(locks := Unlock(s, t), txns := s.txns[t := Rereading(x.booking)])
           else s.(txns := s.txns[t := Inserted(row)])
      else s
    case Commit(t) =>
      if t in s.txns && s.txns[t].Inserted?
      then var row := s.txns[t].row;
           s.(rows := s.rows + [row], locks := Unlock(s, t), txns := s.txns[t := Rereading(row.booking)])
      else s
    case Crash(t) => s.(locks := Unlock(s, t), txns := s.txns - {t})
    case Reread(t) =>
      if t in s.txns && s.txns[t].Rereading?
      then s.(txns := s.txns - {t}, answers := s.answers[t := Answer(s.txns[t].booking, Find(s.rows, s.txns[t].booking))])
      else s
  }

  function Run(s: Db, steps: seq<Step>): Db {
    if steps == [] then s else Next(Run(s, steps[..|steps| - 1]), steps[|steps| - 1])
  }

  function Initial(agencyOf: map<string, string>): Db {
    Db(agencyOf, [], map[], map[], map[])
  }

  // ---------------------------------------------------------------- what every step keeps

  function UpTo(n: nat): seq<nat> {
    if n == 0 then [] else UpTo(n - 1) + [n]
  }

  ghost predicate Gapless(rows: seq<Invoice>) {
    forall agency, year :: Sequences(rows, agency, year) == UpTo(|Sequences(rows, agency, year)|)
  }

  ghost predicate OnePerBooking(rows: seq<Invoice>) {
    forall i, j | 0 <= i < j < |rows| :: rows[i].booking != rows[j].booking
  }

  ghost predicate RowsInv(s: Db) {
    && Gapless(s.rows)
    && OnePerBooking(s.rows)
    && forall i | 0 <= i < |s.rows| ::
         && s.rows[i].booking in s.agencyOf && s.agencyOf[s.rows[i].booking] == s.rows[i].agency
         && s.rows[i].number == NumeroFacture(s.rows[i].year, s.rows[i].sequence)
  }

  /** The next sequence of the agency of `booking` for `year`. */
  ghost predicate IsNext(s: Db, booking: string, year: nat, sequence: nat) {
    booking in s.agencyOf && sequence == |Sequences(s.rows, s.agencyOf[booking], year)| + 1
  }

  ghost predicate TxnInv(s: Db, t: nat, x: Txn) {
    && BookingOf(x) in s.agencyOf
    && (x.Locked? || x.Numbered? || x.Inserted? ==>
          s.agencyOf[BookingOf(x)] in s.locks && s.locks[s.agencyOf[BookingOf(x)]] == t)
    && (x.Numbered? ==> IsNext(s, x.booking, x.year, x.sequence))
    && (x.Inserted? ==>
          && IsNext(s, x.row.booking, x.row.year, x.row.sequence) && x.row.agency == s.agencyOf[x.row.booking]
          && x.row.number == NumeroFacture(x.row.year, x.row.sequence) && Find(s.rows, x.row.booking).None?)
    && (x.Rereading? ==> Find(s.rows, x.booking).Some?)
  }

  ghost predicate AnswerInv(s: Db, a: Answer) {
    a.invoice.Some? && a.invoice.value in s.rows && a.invoice.value.booking == a.booking
  }

  ghost predicate Inv(s: Db) {
    && RowsInv(s)
    && (forall t | t in s.txns :: TxnInv(s, t, s.txns[t]))
    && (forall t | t in s.answers :: AnswerInv(s, s.answers[t]))
  }

  lemma {:induction false} FindSpec(rows: seq<Invoice>, booking: string)
    ensures Find(rows, booking).Some? ==> Find(rows, booking).value in rows && Find(rows, booking).value.booking == booking
    ensures Find(rows, booking).None? <==> forall i | 0 <= i < |rows| :: rows[i].booking != booking
  {
    if rows != [] {
      FindSpec(rows[..|rows| - 1], booking);
      assert rows == rows[..|rows| - 1] + [rows[|rows| - 1]];
    }
  }

  lemma {:induction false} MaxOfUpTo(n: nat)
    ensures |UpTo(n)| == n && MaxOf(UpTo(n)) == n
    ensures forall k :: k in UpTo(n) <==> 1 <= k <= n
  {
    if n > 0 {
      MaxOfUpTo(n - 1);
      assert UpTo(n)[..|UpTo(n)| - 1] == UpTo(n - 1);
    }
  }

  lemma {:induction false} RowInSequences(rows: seq<Invoice>, i: nat)
    requires i < |rows|
    ensures rows[i].sequence in Sequences(rows, rows[i].agency, rows[i].year)
  {
    if i < |rows| - 1 {
      RowInSequences(rows[..|rows| - 1], i);
    }
  }

  /** With the lock held, the sequence key is never the one violated. */
  lemma OnlyBookingKeyFails(s: Db, row: Invoice)
    requires Gapless(s.rows)
    requires row.sequence == |Sequences(s.rows, row.agency, row.year)| + 1
    ensures ViolatesKey(s.rows, row) <==> Find(s.rows, row.booking).Some?
  {
    FindSpec(s.rows, row.booking);
    forall i | 0 <= i < |s.rows| && s.rows[i].agency == row.agency && s.rows[i].year == row.year
      ensures s.rows[i].sequence != row.sequence
    {
      RowInSequences(s.rows, i);
      MaxOfUpTo(|Sequences(s.rows, row.agency, row.year)|);
    }
    if Find(s.rows, row.booking).Some? {
      var i :| 0 <= i < |s.rows| && s.rows[i].booking == row.booking;
    }
  }

  lemma SequencesAppend(rows: seq<Invoice>, row: Invoice, agency: string, year: nat)
    ensures Sequences(rows + [row], agency, year) ==
            Sequences(rows, agency, year) + (if row.agency == agency && row.year == year then [row.sequence] else [])
  {
    assert (rows + [row])[..|rows|] == rows;
  }

  lemma FindAppend(rows: seq<Invoice>, row: Invoice, booking: string)
    ensures Find(rows + [row], booking) == if row.booking == booking then Some(row) else Find(rows, booking)
  {
    assert (rows + [row])[..|rows|] == rows;
  }

  /** Committing the next sequence of an agency leaves no gap anywhere. */
  lemma CommitKeepsRows(s: Db, row: Invoice)
    requires RowsInv(s) && IsNext(s, row.booking, row.year, row.sequence) && row.agency == s.agencyOf[row.booking]
    requires row.number == NumeroFacture(row.year, row.sequence) && Find(s.rows, row.booking).None?
    ensures RowsInv(s.(rows := s.rows + [row]))
  {
    hide NumeroFacture;
    var rows := s.rows + [row];
    forall agency, year ensures Sequences(rows, agency, year) == UpTo(|Sequences(rows, agency, year)|) {
      SequencesAppend(s.rows, row, agency, year);
      assert Sequences(s.rows, agency, year) == UpTo(|Sequences(s.rows, agency, year)|);
    }
    FindSpec(s.rows, row.booking);
  }

  /** A commit only concerns the requests of the agency whose lock it holds. */
  lemma OthersKeepTxnInv(s: Db, t: nat, x: Txn, row: Invoice)
    requires TxnInv(s, t, x) && row.booking in s.agencyOf && row.agency == s.agencyOf[row.booking]
    requires x.Locked? || x.Numbered? || x.Inserted? ==> s.agencyOf[BookingOf(x)] != row.agency
    ensures TxnInv(s.(rows := s.rows + [row]), t, x)
  {
    hide NumeroFacture;
    match x
    case Numbered(booking, year, _, _) => SequencesAppend(s.rows, row, s.agencyOf[booking], year);
    case Inserted(r) =>
      SequencesAppend(s.rows, row, s.agencyOf[r.booking], r.year);
      FindAppend(s.rows, row, r.booking);
    case Rereading(booking) => FindAppend(s.rows, row, booking);
    case _ =>
  }

  lemma CommitKeepsInv(s: Db, t: nat)
    requires Inv(s) && t in s.txns && s.txns[t].Inserted?
    ensures Inv(Next(s, Commit(t)))
  {
    hide NumeroFacture;
    var row := s.txns[t].row;
    var s' := Next(s, Commit(t));
    assert TxnInv(s, t, s.txns[t]);
    CommitKeepsRows(s, row);
    FindAppend(s.rows, row, row.booking);
    forall u | u in s'.txns ensures TxnInv(s', u, s'.txns[u]) {
      if u != t {
        assert TxnInv(s, u, s.txns[u]);
        OthersKeepTxnInv(s, u, s.txns[u], row);
      }
    }
  }

  lemma ReadMaxKeepsInv(s: Db, t: nat)
    requires Inv(s) && t in s.txns && s.txns[t].Locked?
    ensures Inv(Next(s, ReadMax(t)))
  {
    hide NumeroFacture, Sequences, Find, MaxOf, UpTo;
    var x := s.txns[t];
    assert TxnInv(s, t, x);
    var issued := Sequences(s.rows, s.agencyOf[x.booking], x.year);
    assert issued == UpTo(|issued|);
    MaxOfUpTo(|issued|);
    var s' := Next(s, ReadMax(t));
    assert s'.txns[t] == Numbered(x.booking, x.year, x.amount, |issued| + 1);
    assert TxnInv(s', t, s'.txns[t]);
    forall u | u in s'.txns && u != t ensures TxnInv(s', u, s'.txns[u]) {
      assert TxnInv(s, u, s.txns[u]);
    }
  }

  lemma InsertKeepsInv(s: Db, t: nat)
    requires Inv(s) && t in s.txns && s.txns[t].Numbered?
    ensures Inv(Next(s, Insert(t)))
  {
    hide NumeroFacture, Sequences, Find, MaxOf, UpTo, ViolatesKey;
    var x := s.txns[t];
    assert TxnInv(s, t, x);
    OnlyBookingKeyFails(s, Invoice(s.agencyOf[x.booking], x.booking, x.year, x.sequence,
                                   NumeroFacture(x.year, x.sequence), x.amount));
    var s' := Next(s, Insert(t));
    forall u | u in s'.txns && u != t ensures TxnInv(s', u, s'.txns[u]) {
      assert TxnInv(s, u, s.txns[u]);
    }
  }

  lemma TakeLockKeepsInv(s: Db, t: nat)
    requires Inv(s)
    ensures Inv(Next(s, TakeLock(t)))
  {
    hide NumeroFacture, Sequences, Find, MaxOf, UpTo;
    var s' := Next(s, TakeLock(t));
    forall u | u in s'.txns && u != t ensures TxnInv(s', u, s'.txns[u]) {
      assert TxnInv(s, u, s.txns[u]);
    }
  }

  lemma CrashKeepsInv(s: Db, t: nat)
    requires Inv(s)
    ensures Inv(Next(s, Crash(t)))
  {
    hide NumeroFacture, Sequences, Find, MaxOf, UpTo;
    var s' := Next(s, Crash(t));
    forall u | u in s'.txns ensures TxnInv(s', u, s'.txns[u]) {
      assert TxnInv(s, u, s.txns[u]);
    }
  }

  lemma RereadKeepsInv(s: Db, t: nat)
    requires Inv(s) && t in s.txns && s.txns[t].Rereading?
    ensures Inv(Next(s, Reread(t)))
  {
    hide NumeroFacture, Sequences, Find, MaxOf, UpTo;
    var s' := Next(s, Reread(t));
    assert TxnInv(s, t, s.txns[t]);
    FindSpec(s.rows, s.txns[t].booking);
    forall u | u in s'.txns ensures TxnInv(s', u, s'.txns[u]) {
      assert TxnInv(s, u, s.txns[u]);
    }
  }

  lemma RequestKeepsInv(s: Db, t: nat, booking: string, year: nat, amount: int)
    requires Inv(s)
    ensures Inv(Next(s, Request(t, booking, year, amount)))
  {
    hide NumeroFacture, Sequences, Find, MaxOf, UpTo;
    FindSpec(s.rows, booking);
    var s' := Next(s, Request(t, booking, year, amount));
    forall u | u in s'.txns && u in s.txns ensures TxnInv(s', u, s'.txns[u]) {
      assert TxnInv(s, u, s.txns[u]);
    }
  }

  /** Every step of every request keeps the invariant. */
  lemma NextKeepsInv(s: Db, step: Step)
    requires Inv(s)
    ensures Inv(Next(s, step)) && Next(s, step).agencyOf == s.agencyOf
  {
    hide NumeroFacture, Sequences, Find, MaxOf, UpTo, ViolatesKey, Inv;
    match step
    case Request(t, booking, year, amount) => RequestKeepsInv(s, t, booking, year, amount);
    case TakeLock(t) => TakeLockKeepsInv(s, t);
    case ReadMax(t) =>
      if t in s.txns && s.txns[t].Locked? {
        ReadMaxKeepsInv(s, t);
      }
    case Insert(t) =>
      if t in s.txns && s.txns[t].Numbered? {
        InsertKeepsInv(s, t);
      }
    case Commit(t) =>
      if t in s.txns && s.txns[t].Inserted? {
        CommitKeepsInv(s, t);
      }
    case Crash(t) => CrashKeepsInv(s, t);
    case Reread(t) =>
      if t in s.txns && s.txns[t].Rereading? {
        RereadKeepsInv(s, t);
      }
  }

  lemma {:induction false} RunKeepsInv(agencyOf: map<string, string>, steps: seq<Step>)
    ensures Inv(Run(Initial(agencyOf), steps))
  {
    if steps != [] {
      RunKeepsInv(agencyOf, steps[..|steps| - 1]);
      NextKeepsInv(Run(Initial(agencyOf), steps[..|steps| - 1]), steps[|steps| - 1]);
    }
  }

  // ---------------------------------------------------------------- main results

  /**
   * Under every interleaving, crashes included: each agency numbers its invoices of a year 1, 2, ..., n
   * in commit order, and a booking has at most one invoice.
   */
  lemma SequencesAreGapless(agencyOf: map<string, string>, steps: seq<Step>, agency: string, year: nat)
    ensures var rows := Run(Initial(agencyOf), steps).rows;
            && Sequences(rows, agency, year) == UpTo(|Sequences(rows, agency, year)|)
            && OnePerBooking(rows)
  {
    RunKeepsInv(agencyOf, steps);
  }

  /** Two invoices of one agency never carry the same number. */
  lemma NumbersAreUnique(agencyOf: map<string, string>, steps: seq<Step>, i: nat, j: nat)
    requires i < j < |Run(Initial(agencyOf), steps).rows|
    ensures var rows := Run(Initial(agencyOf), steps).rows;
            rows[i].agency == rows[j].agency ==> rows[i].number != rows[j].number
  {
    hide Run, NumeroFacture, ReadNumero;
    RunKeepsInv(agencyOf, steps);
    var rows := Run(Initial(agencyOf), steps).rows;
    NumeroRoundTrip(rows[i].year, rows[i].sequence);
    NumeroRoundTrip(rows[j].year, rows[j].sequence);
    if rows[i].agency == rows[j].agency && rows[i].year == rows[j].year {
      SequencesDiffer(rows, i, j);
    }
  }

  /** Later rows of one agency and year carry larger sequences. */
  lemma {:induction false} SequencesDiffer(rows: seq<Invoice>, i: nat, j: nat)
    requires Gapless(rows) && i < j < |rows|
    requires rows[i].agency == rows[j].agency && rows[i].year == rows[j].year
    ensures rows[i].sequence < rows[j].sequence
  {
    var init, last := rows[..|rows| - 1], rows[|rows| - 1];
    assert rows == init + [last];
    forall agency, year ensures Sequences(init, agency, year) == UpTo(|Sequences(init, agency, year)|) {
      SequencesAppend(init, last, agency, year);
      var all := Sequences(rows, agency, year);
      assert all == UpTo(|all|);
      if last.agency == agency && last.year == year {
        assert all[..|all| - 1] == Sequences(init, agency, year);
        MaxOfUpTo(|all| - 1);
        assert UpTo(|all|)[..|all| - 1] == UpTo(|all| - 1);
      }
    }
    if j < |rows| - 1 {
      SequencesDiffer(init, i, j);
    } else {
      var agency, year := last.agency, last.year;
      var before := Sequences(init, agency, year);
      SequencesAppend(init, last, agency, year);
      RowInSequences(init, i);
      MaxOfUpTo(|before|);
      var all := Sequences(rows, agency, year);
      assert all[|all| - 1] == last.sequence && UpTo(|all|)[|all| - 1] == |all|;
    }
  }

  /**
   * The read that follows `emettre` always finds an invoice of the booking asked for, and every
   * request for one booking is answered with the same invoice.
   */
  lemma AnswersAgree(agencyOf: map<string, string>, steps: seq<Step>, t: nat, u: nat)
    requires var s := Run(Initial(agencyOf), steps); t in s.answers && u in s.answers
    ensures var s := Run(Initial(agencyOf), steps);
            && s.answers[t].invoice.Some? && s.answers[t].invoice.value.booking == s.answers[t].booking
            && (s.answers[t].booking == s.answers[u].booking ==> s.answers[t] == s.answers[u])
  {
    hide Run;
    RunKeepsInv(agencyOf, steps);
    SameBookingSameInvoice(Run(Initial(agencyOf), steps), t, u);
  }

  lemma SameBookingSameInvoice(s: Db, t: nat, u: nat)
    requires Inv(s) && t in s.answers && u in s.answers
    ensures s.answers[t].invoice.Some? && s.answers[t].invoice.value.booking == s.answers[t].booking
    ensures s.answers[t].booking == s.answers[u].booking ==> s.answers[t] == s.answers[u]
  {
    hide Sequences, Find, UpTo, NumeroFacture, TxnInv;
    assert AnswerInv(s, s.answers[t]) && AnswerInv(s, s.answers[u]);
    var i :| 0 <= i < |s.rows| && s.rows[i] == s.answers[t].invoice.value;
    var j :| 0 <= j < |s.rows| && s.rows[j] == s.answers[u].invoice.value;
  }

  /** An invoice, once committed, keeps its place, its number and its amount through the rest of any run. */
  lemma {:induction false} InvoicesAreImmutable(agencyOf: map<string, string>, steps: seq<Step>, i: nat)
    requires i <= |steps|
    ensures Run(Initial(agencyOf), steps[..i]).rows <= Run(Initial(agencyOf), steps).rows
  {
    if i == |steps| {
      assert steps[..i] == steps;
    } else {
      var before := steps[..|steps| - 1];
      assert before[..i] == steps[..i];
      InvoicesAreImmutable(agencyOf, before, i);
      StepOnlyAdds(Run(Initial(agencyOf), before), steps[|steps| - 1]);
    }
  }

  lemma StepOnlyAdds(s: Db, step: Step)
    ensures s.rows <= Next(s, step).rows
  {
  }

  // ---------------------------------------------------------------- what a request obtains

  /** The request was made: for this booking, year and amount. */
  ghost predicate Requested(steps: seq<Step>, booking: string, year: nat, amount: int) {
    exists k :: 0 <= k < |steps| && steps[k].Request? && steps[k].booking == booking && steps[k].year == year &&
                steps[k].amount == amount
  }

  /** A request in progress that has not committed is still for what was asked. */
  ghost predicate Pending(x: Txn, booking: string, year: nat, amount: int) {
    match x
    case Waiting(b, y, a) => b == booking && y == year && a == amount
    case Locked(b, y, a) => b == booking && y == year && a == amount
    case Numbered(b, y, a, _) => b == booking && y == year && a == amount
    case Inserted(row) => row.booking == booking && row.year == year && row.amount == amount
    case Rereading(_) => false
  }

  ghost predicate Traced(s: Db, steps: seq<Step>) {
    && (forall i | 0 <= i < |s.rows| :: Requested(steps, s.rows[i].booking, s.rows[i].year, s.rows[i].amount))
    && (forall t, booking, year, amount | t in s.txns && Pending(s.txns[t], booking, year, amount) ::
          Requested(steps, booking, year, amount))
  }

  lemma RequestedBefore(steps: seq<Step>, step: Step, booking: string, year: nat, amount: int)
    ensures Requested(steps + [step], booking, year, amount) <==>
            Requested(steps, booking, year, amount) ||
            (step.Request? && step.booking == booking && step.year == year && step.amount == amount)
  {
    var all := steps + [step];
    if Requested(steps, booking, year, amount) {
      var k :| 0 <= k < |steps| && steps[k].Request? && steps[k].booking == booking && steps[k].year == year &&
               steps[k].amount == amount;
      assert all[k] == steps[k];
    } else if step.Request? && step.booking == booking && step.year == year && step.amount == amount {
      assert all[|steps|] == step;
    }
  }

  /** What a step makes pending was pending already, or is what the step asks. */
  lemma StepPending(s: Db, step: Step, t: nat, booking: string, year: nat, amount: int)
    requires t in Next(s, step).txns && Pending(Next(s, step).txns[t], booking, year, amount)
    ensures (t in s.txns && Pending(s.txns[t], booking, year, amount)) ||
            (step.Request? && step.booking == booking && step.year == year && step.amount == amount)
  {
    hide Sequences, MaxOf, NumeroFacture, ViolatesKey, Find;
  }

  /** What a step commits was pending. */
  lemma StepRows(s: Db, step: Step, i: nat)
    requires i < |Next(s, step).rows|
    ensures var row := Next(s, step).rows[i];
            (i < |s.rows| && row == s.rows[i]) ||
            exists t :: t in s.txns && Pending(s.txns[t], row.booking, row.year, row.amount)
  {
    hide Sequences, MaxOf, NumeroFacture, ViolatesKey, Find;
    if i >= |s.rows| {
      assert step.Commit? && Pending(s.txns[step.t], Next(s, step).rows[i].booking, Next(s, step).rows[i].year,
                                     Next(s, step).rows[i].amount);
    }
  }

  lemma {:induction false} RunIsTraced(agencyOf: map<string, string>, steps: seq<Step>)
    ensures Traced(Run(Initial(agencyOf), steps), steps)
  {
    if steps != [] {
      var before, step := steps[..|steps| - 1], steps[|steps| - 1];
      var s, t := Run(Initial(agencyOf), before), Run(Initial(agencyOf), steps);
      RunIsTraced(agencyOf, before);
      assert steps == before + [step];
      hide Next, Run, Pending, Requested;
      forall i | 0 <= i < |t.rows| ensures Requested(steps, t.rows[i].booking, t.rows[i].year, t.rows[i].amount) {
        StepRows(s, step, i);
        RequestedBefore(before, step, t.rows[i].booking, t.rows[i].year, t.rows[i].amount);
      }
      forall u, booking, year, amount | u in t.txns && Pending(t.txns[u], booking, year, amount)
        ensures Requested(steps, booking, year, amount)
      {
        StepPending(s, step, u, booking, year, amount);
        RequestedBefore(before, step, booking, year, amount);
      }
    }
  }

  /** Under every interleaving each invoice was asked for: some request has its booking, its year and its amount. */
  lemma EveryInvoiceWasRequested(agencyOf: map<string, string>, steps: seq<Step>, row: Invoice)
    requires row in Run(Initial(agencyOf), steps).rows
    ensures exists k :: 0 <= k < |steps| && steps[k].Request? && steps[k].booking == row.booking &&
                        steps[k].year == row.year && steps[k].amount == row.amount
  {
    RunIsTraced(agencyOf, steps);
    assert Requested(steps, row.booking, row.year, row.amount);
  }

  /** The steps of one request, run to its end. */
  function Alone(t: nat, booking: string, year: nat, amount: int): seq<Step> {
    [Request(t, booking, year, amount), TakeLock(t), ReadMax(t), Insert(t), Commit(t), Reread(t)]
  }

  lemma RunSnoc(s: Db, steps: seq<Step>, step: Step)
    ensures Run(s, steps + [step]) == Next(Run(s, steps), step)
  {
    assert (steps + [step])[..|steps|] == steps;
  }

  lemma RunSix(s: Db, a: Step, b: Step, c: Step, d: Step, e: Step, f: Step)
    ensures Run(s, [a, b, c, d, e, f]) == Next(Next(Next(Next(Next(Next(s, a), b), c), d), e), f)
  {
    assert Run(s, []) == s;
    hide Next, Run;
    RunSnoc(s, [], a);
    RunSnoc(s, [] + [a], b);
    RunSnoc(s, [] + [a] + [b], c);
    RunSnoc(s, [] + [a] + [b] + [c], d);
    RunSnoc(s, [] + [a] + [b] + [c] + [d], e);
    RunSnoc(s, [] + [a] + [b] + [c] + [d] + [e], f);
    assert [a, b, c, d, e, f] == [] + [a] + [b] + [c] + [d] + [e] + [f];
  }

  /**
   * A request that runs alone, the lock of its agency being free, is answered. When its booking has no invoice
   * it commits exactly one, of its amount, with the next number of its agency and year; otherwise the invoice of
   * the booking is its answer and nothing is written.
   */
  lemma AloneIsAnswered(s: Db, t: nat, booking: string, year: nat, amount: int)
    requires RowsInv(s) && booking in s.agencyOf && t !in s.txns && t !in s.answers && s.agencyOf[booking] !in s.locks
    ensures var after := Run(s, Alone(t, booking, year, amount));
            var sequence := |Sequences(s.rows, s.agencyOf[booking], year)| + 1;
            && t in after.answers && after.answers[t].booking == booking
            && (if Find(s.rows, booking).Some? then
                  after.rows == s.rows && after.answers[t].invoice == Find(s.rows, booking)
                else
                  var row := Invoice(s.agencyOf[booking], booking, year, sequence, NumeroFacture(year, sequence), amount);
                  after.rows == s.rows + [row] && after.answers[t].invoice == Some(row))
  {
    RunSix(s, Request(t, booking, year, amount), TakeLock(t), ReadMax(t), Insert(t), Commit(t), Reread(t));
    hide Run, NumeroFacture, Sequences, Gapless, OnePerBooking;
    if Find(s.rows, booking).None? {
      var agency := s.agencyOf[booking];
      var sequence := |Sequences(s.rows, agency, year)| + 1;
      var row := Invoice(agency, booking, year, sequence, NumeroFacture(year, sequence), amount);
      var s3 := AloneIsNumbered(s, t, booking, year, amount);
      OnlyBookingKeyFails(s, row);
      AloneCommits(s3, t, row);
    }
  }

  /** The request, the lock and the maximum. */
  lemma AloneIsNumbered(s: Db, t: nat, booking: string, year: nat, amount: int) returns (s3: Db)
    requires Gapless(s.rows) && booking in s.agencyOf && t !in s.txns && t !in s.answers && s.agencyOf[booking] !in s.locks
    requires Find(s.rows, booking).None?
    ensures s3 == Next(Next(Next(s, Request(t, booking, year, amount)), TakeLock(t)), ReadMax(t))
    ensures s3.rows == s.rows && s3.agencyOf == s.agencyOf && t in s3.txns
    ensures s3.txns[t] == Numbered(booking, year, amount, |Sequences(s.rows, s.agencyOf[booking], year)| + 1)
  {
    hide Sequences, Gapless, MaxOf, Find;
    NextSequence(s, s.agencyOf[booking], year);
    s3 := Next(Next(Next(s, Request(t, booking, year, amount)), TakeLock(t)), ReadMax(t));
  }

  /** The insertion, the commit and the second read. */
  lemma AloneCommits(s: Db, t: nat, row: Invoice)
    requires t in s.txns && s.txns[t] == Numbered(row.booking, row.year, row.amount, row.sequence)
    requires row.booking in s.agencyOf && s.agencyOf[row.booking] == row.agency
    requires row.number == NumeroFacture(row.year, row.sequence)
    requires !ViolatesKey(s.rows, row) && Find(s.rows, row.booking).None?
    ensures var after := Next(Next(Next(s, Insert(t)), Commit(t)), Reread(t));
            after.rows == s.rows + [row] && t in after.answers && after.answers[t] == Answer(row.booking, Some(row))
  {
    hide ViolatesKey, NumeroFacture, Find;
    FindAppend(s.rows, row, row.booking);
  }

  lemma NextSequence(s: Db, agency: string, year: nat)
    requires Gapless(s.rows)
    ensures MaxOf(Sequences(s.rows, agency, year)) + 1 == |Sequences(s.rows, agency, year)| + 1
  {
    hide Sequences, MaxOf;
    var n := |Sequences(s.rows, agency, year)|;
    assert Sequences(s.rows, agency, year) == UpTo(n);
    MaxOfUpTo(n);
  }

  lemma {:induction false} NoLeadingZero(n: nat)
    ensures |Decimal(n)| >= 1 && (|Decimal(n)| > 1 ==> Decimal(n)[0] != '0')
    ensures n > 0 ==> Decimal(n)[0] != '0'
  {
    if n >= 10 {
      NoLeadingZero(n / 10);
    }
  }

  lemma {:induction false} ZerosAreZeros(n: nat)
    ensures |Zeros(n)| == n && forall i | 0 <= i < n :: Zeros(n)[i] == '0'
  {
    if n > 0 {
      ZerosAreZeros(n - 1);
    }
  }

  lemma PaddedReads(n: nat)
    ensures var digits := PadStart(Decimal(n), 5);
            && ValueOf(digits) == n && (forall i | 0 <= i < |digits| :: IsDigit(digits[i]))
            && |digits| >= 5 && (|digits| > 5 ==> digits[0] != '0')
  {
    DecimalReads(n);
    NoLeadingZero(n);
    var missing := if |Decimal(n)| < 5 then 5 - |Decimal(n)| else 0;
    ZerosAreZeros(missing);
    LeadingZeros(missing, Decimal(n));
    hide Decimal, Zeros, ValueOf;
  }

  /**
   * How a number looks: a prefix, the year, and the sequence on five digits, or as many as it needs, zeros before
   * it only to make up the five.
   */
  lemma NumeroLooks(annee: nat, sequence: nat) returns (year: string, digits: string)
    ensures NumeroFacture(annee, sequence) == "FAC-" + year + "-" + digits
    ensures ValueOf(year) == annee && ValueOf(digits) == sequence
    ensures (forall i | 0 <= i < |year| :: IsDigit(year[i])) && (forall i | 0 <= i < |digits| :: IsDigit(digits[i]))
    ensures |digits| >= 5 && (|digits| > 5 ==> digits[0] != '0') && |year| >= 1 && (|year| > 1 ==> year[0] != '0')
  {
    hide Decimal, PadStart, ValueOf;
    year, digits := Decimal(annee), PadStart(Decimal(sequence), 5);
    DecimalReads(annee);
    NoLeadingZero(annee);
    PaddedReads(sequence);
  }

  // ---------------------------------------------------------------- the balance printed on an invoice

  datatype PaymentStatus = PendingPayment | Succeeded | Failed | Refunded

  datatype Payment = Payment(status: PaymentStatus, amount: int, refundedAmount: Option<int>)

  /** Collected: succeeded, or refunded afterwards. */
  function Encaisses(payments: seq<Payment>): seq<Payment> {
    if payments == [] then []
    else Encaisses(payments[..|payments| - 1]) +
         (if payments[|payments| - 1].status in {Succeeded, Refunded} then [payments[|payments| - 1]] else [])
  }

  function Paid(payments: seq<Payment>): int {
    if payments == [] then 0 else Paid(payments[..|payments| - 1]) + payments[|payments| - 1].amount
  }

  function GivenBack(payments: seq<Payment>): int {
    if payments == [] then 0
    else GivenBack(payments[..|payments| - 1]) + payments[|payments| - 1].refundedAmount.GetOr(0)
  }

  function BalanceDue(total: int, payments: seq<Payment>, cancelled: bool): int {
    var encaisses := Encaisses(payments);
    if cancelled then 0 else Max(0, total - Paid(encaisses) + GivenBack(encaisses))
  }

  /** What one payment leaves with the agency. */
  function Kept(p: Payment): int {
    match p.status
    case Succeeded => p.amount - p.refundedAmount.GetOr(0)
    case Refunded => p.amount - p.refundedAmount.GetOr(0)
    case _ => 0
  }

  function AllKept(payments: seq<Payment>): int {
    if payments == [] then 0 else AllKept(payments[..|payments| - 1]) + Kept(payments[|payments| - 1])
  }

  lemma {:induction false} KeptIsPaidLessGivenBack(payments: seq<Payment>)
    ensures Paid(Encaisses(payments)) - GivenBack(Encaisses(payments)) == AllKept(payments)
  {
    if payments != [] {
      var init, p := payments[..|payments| - 1], payments[|payments| - 1];
      KeptIsPaidLessGivenBack(init);
      assert (Encaisses(init) + [p])[..|Encaisses(init) + [p]| - 1] == Encaisses(init);
      assert Encaisses(init) + [] == Encaisses(init);
    }
  }

  /**
   * What an invoice says is due, with what the agency has kept, makes up the total exactly unless more than the
   * total was kept; then, and on a cancelled booking, nothing is due.
   */
  lemma BalanceMakesUpTotal(total: int, payments: seq<Payment>, cancelled: bool)
    ensures var due := BalanceDue(total, payments, cancelled);
            && due >= 0
            && (cancelled ==> due == 0)
            && (!cancelled ==> (due + AllKept(payments) == total <==> AllKept(payments) <= total))
            && (AllKept(payments) >= total ==> due == 0)
  {
    KeptIsPaidLessGivenBack(payments);
  }
}
