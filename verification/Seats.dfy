/**
 * Seats of packages and the bookings that hold them. The number of seats taken is kept in the package
 * row and updated by hand whenever a booking is created or cancelled; this module proves when it
 * agrees with the bookings. Rows are never deleted, so an identifier is a position in its table.
 */
module Seats {
  import opened Basics

  datatype PackageStatus = Open | Full | Closed

  datatype Package = Package(capacity: int, seatsTaken: int, status: PackageStatus)

  datatype StepKey = Payment | Visa | Flight | Vaccination | Documents

  datatype StepStatus = Pending | InProgress | Done

  datatype Booking = Booking(pilgrimId: string, packageId: nat, status: BookingStatus, steps: map<StepKey, StepStatus>)

  datatype State = State(packages: seq<Package>, bookings: seq<Booking>)

  datatype Error = NotFound | Forbidden | Conflict | BadRequest

  datatype Op =
    | Publish(capacity: int)
    | Resize(packageId: nat, newCapacity: int)
    | Close(packageId: nat)
    | Book(pilgrimId: string, packageId: nat)
    | Cancel(pilgrimId: string, bookingId: nat)
    | SetStep(bookingId: nat, key: StepKey, status: StepStatus)

  const DEFAULT_STEPS: map<StepKey, StepStatus> :=
    map[Payment := Pending, Visa := Pending, Flight := Pending, Vaccination := Pending, Documents := Pending]

  // ---------------------------------------------------------------- one request

  /** A refused reservation may still mark the package as full. */
  function Reserve(p: Package): (Package, Option<Error>) {
    if p.status != Open then (p, Some(Conflict))
    else if p.seatsTaken >= p.capacity then (p.(status := Full), Some(Conflict))
    else (p.(seatsTaken := p.seatsTaken + 1, status := if p.seatsTaken + 1 >= p.capacity then Full else p.status), None)
  }

  function Release(p: Package): Package {
    var seatsTaken := Max(0, p.seatsTaken - 1);
    p.(seatsTaken := seatsTaken, status := if p.status == Full && seatsTaken < p.capacity then Open else p.status)
  }

  predicate AllDone(steps: map<StepKey, StepStatus>) {
    forall k | k in steps :: steps[k] == Done
  }

  /** A dossier whose steps are all done confirms its booking, whatever the status was. */
  function Confirm(b: Booking): Booking {
    if AllDone(b.steps) && b.status != Confirmed then b.(status := Confirmed) else b
  }

  function Apply(s: State, op: Op): (State, Option<Error>) {
    match op
    case Publish(capacity) =>
      if capacity < 1 then (s, Some(BadRequest))
      else (s.(packages := s.packages + [Package(capacity, 0, Open)]), None)
    case Resize(p, capacity) =>
      if capacity < 1 then (s, Some(BadRequest))
      else if p >= |s.packages| then (s, Some(NotFound))
      else (s.(packages := s.packages[p := s.packages[p].(capacity := capacity)]), None)
    case Close(p) =>
      if p >= |s.packages| then (s, Some(NotFound))
      else (s.(packages := s.packages[p := s.packages[p].(status := Closed)]), None)
    case Book(pilgrimId, p) =>
      if p >= |s.packages| then (s, Some(NotFound))
      else
        var (pkg, refusal) := Reserve(s.packages[p]);
        var bookings := if refusal.Some? then [] else [Booking(pilgrimId, p, PendingPayment, DEFAULT_STEPS)];
        (State(s.packages[p := pkg], s.bookings + bookings), refusal)
    case Cancel(pilgrimId, b) =>
      if b >= |s.bookings| then (s, Some(NotFound))
      else if s.bookings[b].pilgrimId != pilgrimId then (s, Some(Forbidden))
      else
        var booking := s.bookings[b];
        if booking.status != Cancelled && booking.packageId >= |s.packages| then (s, Some(NotFound))
        else (State(if booking.status == Cancelled then s.packages
                    else s.packages[booking.packageId := Release(s.packages[booking.packageId])],
                    s.bookings[b := booking.(status := Cancelled)]),
              None)
    case SetStep(b, key, status) =>
      if b >= |s.bookings| || key !in s.bookings[b].steps then (s, Some(NotFound))
      else (s.(bookings := s.bookings[b := Confirm(s.bookings[b].(steps := s.bookings[b].steps[key := status]))]), None)
  }

  function Next(s: State, op: Op): State {
    Apply(s, op).0
  }

  function Run(s: State, ops: seq<Op>): State {
    if ops == [] then s else Next(Run(s, ops[..|ops| - 1]), ops[|ops| - 1])
  }

  const EMPTY: State := State([], [])

  // ---------------------------------------------------------------- the services

  class PackagesService {
    var packages: seq<Package>

    constructor ()
      ensures packages == []
    {
      packages := [];
    }

    method Create(capacity: int) returns (refusal: Option<Error>)
      modifies this
      ensures forall bookings ::
                (State(packages, bookings), refusal) == Apply(State(old(packages), bookings), Publish(capacity))
    {
      if capacity < 1 {
        return Some(BadRequest);
      }
      packages := packages + [Package(capacity, 0, Open)];
      refusal := None;
    }

    method Update(p: nat, capacity: int) returns (refusal: Option<Error>)
      modifies this
      ensures forall bookings ::
                (State(packages, bookings), refusal) == Apply(State(old(packages), bookings), Resize(p, capacity))
    {
      if capacity < 1 {
        return Some(BadRequest);
      }
      if p >= |packages| {
        return Some(NotFound);
      }
      packages := packages[p := packages[p].(capacity := capacity)];
      refusal := None;
    }

    method Close(p: nat) returns (refusal: Option<Error>)
      modifies this
      ensures forall bookings ::
                (State(packages, bookings), refusal) == Apply(State(old(packages), bookings), Op.Close(p))
    {
      if p >= |packages| {
        return Some(NotFound);
      }
      packages := packages[p := packages[p].(status := Closed)];
      refusal := None;
    }

    method ReserveSeat(p: nat) returns (refusal: Option<Error>)
      modifies this
      ensures p >= |old(packages)| ==> packages == old(packages) && refusal == Some(NotFound)
      ensures p < |old(packages)| ==>
                packages == old(packages)[p := Reserve(old(packages)[p]).0] && refusal == Reserve(old(packages)[p]).1
    {
      if p >= |packages| {
        return Some(NotFound);
      }
      var pkg := packages[p];
      if pkg.status != Open {
        return Some(Conflict);
      }
      if pkg.seatsTaken >= pkg.capacity {
        packages := packages[p := pkg.(status := Full)];
        return Some(Conflict);
      }
      var seatsTaken := pkg.seatsTaken + 1;
      var status := if seatsTaken >= pkg.capacity then Full else pkg.status;
      packages := packages[p := pkg.(seatsTaken := seatsTaken, status := status)];
      refusal := None;
    }

    method ReleaseSeat(p: nat) returns (refusal: Option<Error>)
      modifies this
      ensures p >= |old(packages)| ==> packages == old(packages) && refusal == Some(NotFound)
      ensures p < |old(packages)| ==> packages == old(packages)[p := Release(old(packages)[p])] && refusal == None
    {
      if p >= |packages| {
        return Some(NotFound);
      }
      var pkg := packages[p];
      var seatsTaken := if pkg.seatsTaken - 1 >= 0 then pkg.seatsTaken - 1 else 0;
      var status := if pkg.status == Full && seatsTaken < pkg.capacity then Open else pkg.status;
      packages := packages[p := pkg.(seatsTaken := seatsTaken, status := status)];
      refusal := None;
    }
  }

  class BookingsService {
    const packagesService: PackagesService
    var bookings: seq<Booking>

    constructor (packagesService: PackagesService)
      ensures this.packagesService == packagesService && bookings == []
    {
      this.packagesService := packagesService;
      bookings := [];
    }

    ghost function Contents(): State
      reads this, packagesService
    {
      State(packagesService.packages, bookings)
    }

    method Create(pilgrimId: string, p: nat) returns (refusal: Option<Error>)
      modifies this, packagesService
      ensures (Contents(), refusal) == Apply(old(Contents()), Book(pilgrimId, p))
    {
      refusal := packagesService.ReserveSeat(p);
      if refusal.Some? {
        assert bookings + [] == bookings;
        return;
      }
      bookings := bookings + [Booking(pilgrimId, p, PendingPayment, DEFAULT_STEPS)];
    }

    method Cancel(pilgrimId: string, b: nat) returns (refusal: Option<Error>)
      modifies this, packagesService
      ensures (Contents(), refusal) == Apply(old(Contents()), Op.Cancel(pilgrimId, b))
    {
      if b >= |bookings| {
        return Some(NotFound);
      }
      var booking := bookings[b];
      if booking.pilgrimId != pilgrimId {
        return Some(Forbidden);
      }
      if booking.status != Cancelled {
        refusal := packagesService.ReleaseSeat(booking.packageId);
        if refusal.Some? {
          return;
        }
      }
      bookings := bookings[b := booking.(status := Cancelled)];
      refusal := None;
    }

    /** `updateStep`, and `markStepDone` with `Done`. */
    method UpdateStep(b: nat, key: StepKey, status: StepStatus) returns (refusal: Option<Error>)
      modifies this
      ensures (Contents(), refusal) == Apply(old(Contents()), SetStep(b, key, status))
    {
      if b >= |bookings| || key !in bookings[b].steps {
        return Some(NotFound);
      }
      ghost var before := bookings;
      bookings := bookings[b := bookings[b].(steps := bookings[b].steps[key := status])];
      MaybeConfirm(b);
      assert bookings == before[b := bookings[b]];
      refusal := None;
    }

    method MaybeConfirm(b: nat)
      requires b < |bookings|
      modifies this
      ensures bookings == old(bookings)[b := Confirm(old(bookings)[b])]
    {
      var booking := bookings[b];
      var allDone := forall k | k in booking.steps :: booking.steps[k] == Done;
      if allDone && booking.status != Confirmed {
        bookings := bookings[b := booking.(status := Confirmed)];
      }
    }
  }

  // ---------------------------------------------------------------- counting bookings

  /** Bookings of a package that are not cancelled. */
  function Active(bookings: seq<Booking>, p: nat): nat {
    if bookings == [] then 0
    else Active(bookings[..|bookings| - 1], p) + Holds(bookings[|bookings| - 1], p)
  }

  function Holds(b: Booking, p: nat): nat {
    if b.packageId == p && b.status != Cancelled then 1 else 0
  }

  lemma ActiveAppend(bookings: seq<Booking>, b: Booking, p: nat)
    ensures Active(bookings + [b], p) == Active(bookings, p) + Holds(b, p)
  {
    assert (bookings + [b])[..|bookings|] == bookings;
  }

  lemma {:induction false} ActiveReplace(bookings: seq<Booking>, i: nat, b: Booking, p: nat)
    requires i < |bookings|
    ensures Active(bookings[i := b], p) == Active(bookings, p) - Holds(bookings[i], p) + Holds(b, p)
    ensures Active(bookings, p) >= Holds(bookings[i], p)
  {
    var n := |bookings| - 1;
    if i == n {
      assert bookings[i := b][..n] == bookings[..n];
    } else {
      ActiveReplace(bookings[..n], i, b, p);
      assert bookings[i := b][..n] == bookings[..n][i := b];
    }
  }

  // ---------------------------------------------------------------- what every step keeps

  /** Seats stay within the capacity, and a package is full exactly when it has none left. */
  predicate SeatsBounded(p: Package) {
    && 1 <= p.capacity
    && 0 <= p.seatsTaken <= p.capacity
    && (p.status != Closed ==> (p.status == Full <==> p.seatsTaken == p.capacity))
  }

  ghost predicate AllBounded(s: State) {
    forall p | 0 <= p < |s.packages| :: SeatsBounded(s.packages[p])
  }

  /** Every booking is of a stored package. */
  ghost predicate Linked(s: State) {
    forall b | 0 <= b < |s.bookings| :: s.bookings[b].packageId < |s.packages|
  }

  /** Each package counts exactly its bookings. */
  ghost predicate Counted(s: State) {
    forall p | 0 <= p < |s.packages| :: s.packages[p].seatsTaken == Active(s.bookings, p)
  }

  /** No package counts a seat that no booking holds. */
  ghost predicate NotOvercounted(s: State) {
    forall p | 0 <= p < |s.packages| :: s.packages[p].seatsTaken <= Active(s.bookings, p)
  }

  /** The one step that takes a seat without reserving it: the dossier of a cancelled booking completed afterwards. */
  predicate Revives(s: State, op: Op) {
    && op.SetStep?
    && op.bookingId < |s.bookings|
    && op.key in s.bookings[op.bookingId].steps
    && s.bookings[op.bookingId].status == Cancelled
    && AllDone(s.bookings[op.bookingId].steps[op.key := op.status])
  }

  /** Changing the capacity of a package keeps its seats bounded exactly when this holds. */
  predicate SafeResize(s: State, op: Op) {
    op.Resize? && op.newCapacity >= 1 && op.packageId < |s.packages| ==>
      var p := s.packages[op.packageId];
      match p.status
      case Open => p.seatsTaken < op.newCapacity
      case Full => p.seatsTaken == op.newCapacity
      case Closed => p.seatsTaken <= op.newCapacity
  }

  lemma ReserveKeepsBounds(p: Package)
    requires SeatsBounded(p)
    ensures SeatsBounded(Reserve(p).0)
    ensures Reserve(p).1.None? <==> p.status != Closed && p.seatsTaken < p.capacity
    ensures Reserve(p).1.None? ==> Reserve(p).0.seatsTaken == p.seatsTaken + 1
    ensures Reserve(p).1.Some? ==> Reserve(p).0 == p
  {
  }

  lemma ReleaseKeepsBounds(p: Package)
    requires SeatsBounded(p)
    ensures SeatsBounded(Release(p))
    ensures Release(p).status == Closed <==> p.status == Closed
  {
  }

  /** Every request keeps seats bounded, but for a change of capacity, which does exactly when it is safe. */
  lemma StepKeepsBounds(s: State, op: Op)
    requires AllBounded(s)
    ensures AllBounded(Next(s, op)) <==> SafeResize(s, op)
  {
    var t := Next(s, op);
    if op.Resize? && op.newCapacity >= 1 && op.packageId < |s.packages| {
      var p := op.packageId;
      assert t.packages[p] == s.packages[p].(capacity := op.newCapacity);
      assert SeatsBounded(s.packages[p]);
      assert SeatsBounded(t.packages[p]) <==> SafeResize(s, op);
    } else {
      forall p | 0 <= p < |t.packages| ensures SeatsBounded(t.packages[p]) {
        if p < |s.packages| {
          ReserveKeepsBounds(s.packages[p]);
          ReleaseKeepsBounds(s.packages[p]);
        }
      }
    }
  }

  lemma StepKeepsLinks(s: State, op: Op)
    requires Linked(s)
    ensures Linked(Next(s, op)) && |s.packages| <= |Next(s, op).packages|
  {
  }

  /** Seats of `p` that its bookings hold beyond those it counts. */
  function Uncounted(s: State, p: nat): int
    requires p < |s.packages|
  {
    Active(s.bookings, p) - s.packages[p].seatsTaken
  }

  /** The step cancels a booking that holds a seat of `p`. */
  predicate FreesSeat(s: State, op: Op, p: nat) {
    && op.Cancel? && op.bookingId < |s.bookings| && s.bookings[op.bookingId].pilgrimId == op.pilgrimId
    && s.bookings[op.bookingId].packageId == p && s.bookings[op.bookingId].status != Cancelled
  }

  /** A step that releases a seat of a package that counts none. */
  predicate Clamps(s: State, op: Op, p: nat) {
    FreesSeat(s, op, p) && p < |s.packages| && s.packages[p].seatsTaken <= 0
  }

  predicate RevivesIn(s: State, op: Op, p: nat) {
    Revives(s, op) && s.bookings[op.bookingId].packageId == p
  }

  /** What one step does to the count of one package: it drifts by one on a revival, and back on a clamped release. */
  lemma StepDrift(s: State, op: Op, p: nat)
    requires Linked(s) && p < |s.packages| && s.packages[p].seatsTaken >= 0
    ensures Uncounted(Next(s, op), p) ==
            Uncounted(s, p) + (if RevivesIn(s, op, p) then 1 else 0) - (if Clamps(s, op, p) then 1 else 0)
  {
    hide Active;
    var t := Next(s, op);
    match op
    case Publish(_) =>
    case Resize(_, _) =>
    case Close(_) =>
    case Book(pilgrimId, q) =>
      ActiveAppend(s.bookings, Booking(pilgrimId, q, PendingPayment, DEFAULT_STEPS), p);
      assert s.bookings + [] == s.bookings;
    case Cancel(_, b) =>
      if b < |s.bookings| {
        ActiveReplace(s.bookings, b, s.bookings[b].(status := Cancelled), p);
      }
    case SetStep(b, key, status) =>
      if b < |s.bookings| && key in s.bookings[b].steps {
        ActiveReplace(s.bookings, b, Confirm(s.bookings[b].(steps := s.bookings[b].steps[key := status])), p);
      }
  }

  lemma {:induction false} NoneOf(bookings: seq<Booking>, p: nat)
    requires forall b | 0 <= b < |bookings| :: bookings[b].packageId != p
    ensures Active(bookings, p) == 0
  {
    if bookings != [] {
      NoneOf(bookings[..|bookings| - 1], p);
    }
  }

  /** A booking that is not cancelled holds a seat, so where seats are counted releasing one never clamps. */
  lemma ClampNeverActs(s: State, op: Op, p: nat)
    requires Counted(s) && p < |s.packages|
    ensures !Clamps(s, op, p)
  {
    if op.Cancel? && op.bookingId < |s.bookings| {
      ActiveReplace(s.bookings, op.bookingId, s.bookings[op.bookingId], p);
    }
  }

  /** From a state where every seat taken is a booking's, a step keeps the count right exactly when it revives nothing. */
  lemma StepKeepsCount(s: State, op: Op)
    requires Linked(s) && Counted(s)
    ensures Counted(Next(s, op)) <==> !Revives(s, op)
  {
    var t := Next(s, op);
    StepKeepsLinks(s, op);
    forall p | 0 <= p < |s.packages|
      ensures t.packages[p].seatsTaken == Active(t.bookings, p) <==> !RevivesIn(s, op, p)
    {
      StepDrift(s, op, p);
      ClampNeverActs(s, op, p);
      assert Uncounted(s, p) == 0;
    }
    NewPackageIsCounted(s, op);
    if Revives(s, op) {
      assert RevivesIn(s, op, s.bookings[op.bookingId].packageId);
    }
  }

  lemma NewPackageIsCounted(s: State, op: Op)
    requires Linked(s)
    ensures var t := Next(s, op);
            forall p | |s.packages| <= p < |t.packages| :: t.packages[p].seatsTaken == Active(t.bookings, p) == 0
  {
    NoneOf(s.bookings, |s.packages|);
  }

  /** What holds in every run, revivals and changes of capacity included. */
  ghost predicate Sound(s: State) {
    && Linked(s)
    && NotOvercounted(s)
    && forall p | 0 <= p < |s.packages| :: s.packages[p].seatsTaken >= 0
  }

  lemma StepKeepsSound(s: State, op: Op)
    requires Sound(s)
    ensures Sound(Next(s, op))
  {
    var t := Next(s, op);
    StepKeepsLinks(s, op);
    NewPackageIsCounted(s, op);
    forall p | 0 <= p < |s.packages| ensures 0 <= t.packages[p].seatsTaken <= Active(t.bookings, p) {
      StepDrift(s, op, p);
      if Clamps(s, op, p) {
        ActiveReplace(s.bookings, op.bookingId, s.bookings[op.bookingId], p);
      }
    }
  }

  // ---------------------------------------------------------------- runs

  /** In every run no package ever counts more seats than it has bookings that are not cancelled. */
  lemma {:induction false} RunIsSound(ops: seq<Op>)
    ensures Sound(Run(EMPTY, ops))
  {
    if ops != [] {
      RunIsSound(ops[..|ops| - 1]);
      StepKeepsSound(Run(EMPTY, ops[..|ops| - 1]), ops[|ops| - 1]);
    }
  }

  ghost predicate CountedAllAlong(ops: seq<Op>) {
    Counted(Run(EMPTY, ops)) && (ops == [] || CountedAllAlong(ops[..|ops| - 1]))
  }

  ghost predicate BoundedAllAlong(ops: seq<Op>) {
    AllBounded(Run(EMPTY, ops)) && (ops == [] || BoundedAllAlong(ops[..|ops| - 1]))
  }

  predicate NothingRevived(ops: seq<Op>) {
    ops == [] || (NothingRevived(ops[..|ops| - 1]) && !Revives(Run(EMPTY, ops[..|ops| - 1]), ops[|ops| - 1]))
  }

  predicate ResizesSafe(ops: seq<Op>) {
    ops == [] || (ResizesSafe(ops[..|ops| - 1]) && SafeResize(Run(EMPTY, ops[..|ops| - 1]), ops[|ops| - 1]))
  }

  /** The seats of every package are counted right all along a run exactly when no step of it is a revival. */
  lemma {:induction false} CountedIffNothingRevived(ops: seq<Op>)
    ensures CountedAllAlong(ops) <==> NothingRevived(ops)
  {
    if ops != [] {
      var before, op := ops[..|ops| - 1], ops[|ops| - 1];
      CountedIffNothingRevived(before);
      RunIsSound(before);
      hide Next, Counted, Revives;
      if CountedAllAlong(before) {
        StepKeepsCount(Run(EMPTY, before), op);
      }
    }
  }

  /** Seats stay bounded all along a run exactly when every change of capacity in it is safe. */
  lemma {:induction false} BoundedIffResizesSafe(ops: seq<Op>)
    ensures BoundedAllAlong(ops) <==> ResizesSafe(ops)
  {
    if ops != [] {
      var before, op := ops[..|ops| - 1], ops[|ops| - 1];
      BoundedIffResizesSafe(before);
      hide Next, AllBounded, SafeResize;
      if BoundedAllAlong(before) {
        StepKeepsBounds(Run(EMPTY, before), op);
      }
    }
  }

  /** A run without revival and without unsafe change of capacity never sells more seats than a package has. */
  lemma NeverOversold(ops: seq<Op>, p: nat)
    requires NothingRevived(ops) && ResizesSafe(ops) && p < |Run(EMPTY, ops).packages|
    ensures var t := Run(EMPTY, ops);
            && Active(t.bookings, p) == t.packages[p].seatsTaken <= t.packages[p].capacity
            && (t.packages[p].status != Closed ==>
                  (t.packages[p].status == Full <==> Active(t.bookings, p) == t.packages[p].capacity))
  {
    CountedIffNothingRevived(ops);
    BoundedIffResizesSafe(ops);
    hide Run, NothingRevived, ResizesSafe;
    assert SeatsBounded(Run(EMPTY, ops).packages[p]);
  }

  predicate FreesNoSeat(s: State, ops: seq<Op>, p: nat) {
    ops == [] || (FreesNoSeat(s, ops[..|ops| - 1], p) && !FreesSeat(Run(s, ops[..|ops| - 1]), ops[|ops| - 1], p))
  }

  /**
   * After its capacity is raised a full package keeps refusing bookings although seats are free, whatever is
   * requested next, until a booking of it is cancelled.
   */
  lemma {:induction false} RaisedCapacityKeepsRefusing(s: State, p: nat, capacity: int, ops: seq<Op>, pilgrimId: string)
    requires p < |s.packages| && s.packages[p].status == Full && s.packages[p].seatsTaken < capacity
    requires FreesNoSeat(Next(s, Resize(p, capacity)), ops, p)
    ensures var t := Run(Next(s, Resize(p, capacity)), ops);
            && p < |t.packages| && t.packages[p].status != Open
            && t.packages[p].seatsTaken == s.packages[p].seatsTaken
            && Apply(t, Book(pilgrimId, p)).1 == Some(Conflict)
  {
    if ops != [] {
      RaisedCapacityKeepsRefusing(s, p, capacity, ops[..|ops| - 1], pilgrimId);
    }
  }

  lemma RunThree(a: Op, b: Op, c: Op)
    ensures Run(EMPTY, [a, b, c]) == Next(Next(Next(EMPTY, a), b), c)
  {
    hide Next;
    assert [a, b, c][..2] == [a, b] && [a, b][..1] == [a] && [a][..0] == [];
    assert Run(EMPTY, [a][..0]) == EMPTY;
    assert Run(EMPTY, [a, b][..1]) == Next(EMPTY, a);
    assert Run(EMPTY, [a, b, c][..2]) == Next(Next(EMPTY, a), b);
  }

  /** Lowering the capacity to the seats taken leaves a sold-out package open. */
  lemma LoweredCapacityStaysOpen()
    ensures var t := Run(EMPTY, [Publish(2), Book("a", 0), Resize(0, 1)]);
            t.packages == [Package(1, 1, Open)] && !AllBounded(t)
  {
    hide Run;
    RunThree(Publish(2), Book("a", 0), Resize(0, 1));
    var t := Run(EMPTY, [Publish(2), Book("a", 0), Resize(0, 1)]);
    assert !SeatsBounded(t.packages[0]);
  }

  /** Raising it leaves a package full, and refusing bookings, with a seat free. */
  lemma RaisedCapacityStaysFull()
    ensures var t := Run(EMPTY, [Publish(1), Book("a", 0), Resize(0, 2)]);
            && t.packages == [Package(2, 1, Full)] && !AllBounded(t)
            && Apply(t, Book("b", 0)).1 == Some(Conflict)
  {
    hide Run;
    RunThree(Publish(1), Book("a", 0), Resize(0, 2));
    var t := Run(EMPTY, [Publish(1), Book("a", 0), Resize(0, 2)]);
    assert !SeatsBounded(t.packages[0]);
  }

  function Revivals(s: State, ops: seq<Op>, p: nat): nat {
    if ops == [] then 0
    else Revivals(s, ops[..|ops| - 1], p) +
         if RevivesIn(Run(s, ops[..|ops| - 1]), ops[|ops| - 1], p) then 1 else 0
  }

  function ClampedReleases(s: State, ops: seq<Op>, p: nat): nat {
    if ops == [] then 0
    else ClampedReleases(s, ops[..|ops| - 1], p) +
         if Clamps(Run(s, ops[..|ops| - 1]), ops[|ops| - 1], p) then 1 else 0
  }

  /** However a run goes, the count of a package is short by its revivals, less the releases that clamped. */
  lemma {:induction false} DriftIsRevivalsLessClamps(s: State, ops: seq<Op>, p: nat)
    requires Sound(s) && p < |s.packages|
    ensures Sound(Run(s, ops)) && p < |Run(s, ops).packages|
    ensures Uncounted(Run(s, ops), p) == Uncounted(s, p) + Revivals(s, ops, p) - ClampedReleases(s, ops, p)
  {
    hide Active, Apply, Sound, Linked, NotOvercounted;
    if ops != [] {
      var before, op := ops[..|ops| - 1], ops[|ops| - 1];
      DriftIsRevivalsLessClamps(s, before, p);
      StepKeepsSound(Run(s, before), op);
      SoundStepDrift(Run(s, before), op, p);
    }
  }

  lemma SoundStepDrift(s: State, op: Op, p: nat)
    requires Sound(s) && p < |s.packages|
    ensures p < |Next(s, op).packages|
    ensures Uncounted(Next(s, op), p) ==
            Uncounted(s, p) + (if RevivesIn(s, op, p) then 1 else 0) - (if Clamps(s, op, p) then 1 else 0)
  {
    StepKeepsLinks(s, op);
    StepDrift(s, op, p);
  }

  /** A closed package stays closed, and takes no seat any more. */
  lemma {:induction false} ClosedForGood(s: State, ops: seq<Op>, p: nat)
    requires p < |s.packages| && s.packages[p].status == Closed && s.packages[p].seatsTaken >= 0
    ensures var t := Run(s, ops);
            && p < |t.packages| && t.packages[p].status == Closed
            && 0 <= t.packages[p].seatsTaken <= s.packages[p].seatsTaken
  {
    if ops != [] {
      ClosedForGood(s, ops[..|ops| - 1], p);
    }
  }

  /** Whatever follows the closing of a package, it takes no booking any more. */
  lemma ClosingIsFinal(s: State, ops: seq<Op>, p: nat, pilgrimId: string)
    requires p < |s.packages| && s.packages[p].seatsTaken >= 0
    ensures var t := Run(Next(s, Close(p)), ops); Apply(t, Book(pilgrimId, p)).1 == Some(Conflict)
  {
    ClosedForGood(Next(s, Close(p)), ops, p);
  }

  /** Where seats are counted and bounded, a booking is accepted exactly when the package is not closed and not sold out. */
  lemma AcceptedIffSeatLeft(s: State, pilgrimId: string, p: nat)
    requires Counted(s) && AllBounded(s) && p < |s.packages|
    ensures Apply(s, Book(pilgrimId, p)).1.None? <==>
            s.packages[p].status != Closed && Active(s.bookings, p) < s.packages[p].capacity
    ensures Apply(s, Book(pilgrimId, p)).1.Some? ==> Next(s, Book(pilgrimId, p)) == s
  {
    hide Active;
    ReserveKeepsBounds(s.packages[p]);
    assert s.packages[p := s.packages[p]] == s.packages;
    assert s.bookings + [] == s.bookings;
  }

  /** Cancelling twice is cancelling once. */
  lemma SecondCancelChangesNothing(s: State, pilgrimId: string, b: nat)
    ensures var t := Next(s, Cancel(pilgrimId, b)); Next(t, Cancel(pilgrimId, b)) == t
  {
    var t := Next(s, Cancel(pilgrimId, b));
    if Apply(s, Cancel(pilgrimId, b)).1.None? {
      assert t.bookings[b := t.bookings[b]] == t.bookings;
    }
  }

  /** A revival in a sold-out package leaves one booking more than there are seats. */
  lemma RevivalOversells(s: State, op: Op)
    requires Linked(s) && Counted(s) && Revives(s, op)
    requires var p := s.packages[s.bookings[op.bookingId].packageId]; p.seatsTaken == p.capacity
    ensures var p, t := s.bookings[op.bookingId].packageId, Next(s, op);
            p < |t.packages| && Active(t.bookings, p) == t.packages[p].capacity + 1
  {
    var p := s.bookings[op.bookingId].packageId;
    StepDrift(s, op, p);
    ClampNeverActs(s, op, p);
  }

  /** A dossier always has its five steps, and a booking still pending has one that is not done. */
  predicate DossierInv(b: Booking) {
    && b.steps.Keys == DEFAULT_STEPS.Keys
    && b.status != Completed
    && (b.status == PendingPayment ==> !AllDone(b.steps))
  }

  lemma StepKeepsDossiers(s: State, op: Op)
    requires forall b | 0 <= b < |s.bookings| :: DossierInv(s.bookings[b])
    ensures forall b | 0 <= b < |Next(s, op).bookings| :: DossierInv(Next(s, op).bookings[b])
  {
    assert DEFAULT_STEPS[Payment] == Pending;
    if op.SetStep? && op.bookingId < |s.bookings| && op.key in s.bookings[op.bookingId].steps {
      assert DossierInv(s.bookings[op.bookingId]);
      assert s.bookings[op.bookingId].steps[op.key := op.status].Keys == DEFAULT_STEPS.Keys;
    }
  }

  /** In every run a booking leaves the pending state as soon as its dossier is complete. */
  lemma {:induction false} NoCompleteDossierIsPending(ops: seq<Op>)
    ensures forall b | 0 <= b < |Run(EMPTY, ops).bookings| :: DossierInv(Run(EMPTY, ops).bookings[b])
  {
    if ops != [] {
      hide Next, DossierInv;
      NoCompleteDossierIsPending(ops[..|ops| - 1]);
      StepKeepsDossiers(Run(EMPTY, ops[..|ops| - 1]), ops[|ops| - 1]);
    }
  }

  /**
   * A step of an existing dossier can always be set, and the booking is confirmed afterwards exactly when it was
   * already or all five steps are then done.
   */
  lemma StepConfirmsIff(s: State, b: nat, key: StepKey, status: StepStatus)
    requires b < |s.bookings| && DossierInv(s.bookings[b])
    ensures var t := Next(s, SetStep(b, key, status));
            && Apply(s, SetStep(b, key, status)).1 == None
            && |t.bookings| == |s.bookings| && t.packages == s.packages
            && t.bookings[b].steps == s.bookings[b].steps[key := status]
            && (t.bookings[b].status == Confirmed <==>
                  s.bookings[b].status == Confirmed ||
                  forall k: StepKey :: k in t.bookings[b].steps && t.bookings[b].steps[k] == Done)
            && (t.bookings[b].status != Confirmed ==> t.bookings[b].status == s.bookings[b].status)
            && forall c | 0 <= c < |s.bookings| && c != b :: t.bookings[c] == s.bookings[c]
  {
    var dossier := s.bookings[b].steps[key := status];
    forall k: StepKey ensures k in s.bookings[b].steps && k in dossier {
      FiveSteps(k);
    }
  }

  lemma FiveSteps(k: StepKey)
    ensures k in DEFAULT_STEPS.Keys
  {
    match k
    case Payment =>
    case Visa =>
    case Flight =>
    case Vaccination =>
    case Documents =>
  }

  /** A booking is cancelled by its pilgrim alone, and it alone changes. */
  lemma CancelAcceptedIff(s: State, pilgrimId: string, b: nat)
    requires Linked(s)
    ensures var (t, refusal) := Apply(s, Cancel(pilgrimId, b));
            && (refusal == None <==> b < |s.bookings| && s.bookings[b].pilgrimId == pilgrimId)
            && (refusal == None ==> |t.bookings| == |s.bookings| && t.bookings[b].status == Cancelled &&
                                    t.bookings[b].steps == s.bookings[b].steps &&
                                    forall c | 0 <= c < |s.bookings| && c != b :: t.bookings[c] == s.bookings[c])
            && (refusal != None ==> t == s)
  {
  }

  const ALL_BUT_DOCUMENTS: map<StepKey, StepStatus> :=
    DEFAULT_STEPS[Payment := Done][Visa := Done][Flight := Done][Vaccination := Done]

  /** One seat; the first pilgrim cancels, the second books, and the first dossier is completed last. */
  const OVERSELLING_RUN: seq<Op> :=
    [Publish(1), Book("first", 0), SetStep(0, Payment, Done), SetStep(0, Visa, Done), SetStep(0, Flight, Done),
     SetStep(0, Vaccination, Done), Cancel("first", 0), Book("second", 0), SetStep(0, Documents, Done)]

  lemma RunStep(ops: seq<Op>, k: nat, s: State)
    requires k < |ops| && Run(EMPTY, ops[..k]) == s
    ensures Run(EMPTY, ops[..k + 1]) == Next(s, ops[k])
  {
    assert ops[..k + 1][..k] == ops[..k];
  }

  /** Marking a step done while another is pending changes that step alone. */
  lemma StepAlone(s: State, key: StepKey, pending: StepKey)
    requires |s.bookings| == 1 && {key, pending} <= s.bookings[0].steps.Keys
    requires key != pending && s.bookings[0].steps[pending] == Pending
    ensures Next(s, SetStep(0, key, Done)) ==
            s.(bookings := [s.bookings[0].(steps := s.bookings[0].steps[key := Done])])
  {
    var steps := s.bookings[0].steps[key := Done];
    assert steps[pending] == Pending;
  }

  lemma RunStepAlone(k: nat, s: State, key: StepKey)
    requires k < |OVERSELLING_RUN| && Run(EMPTY, OVERSELLING_RUN[..k]) == s
    requires OVERSELLING_RUN[k] == SetStep(0, key, Done) && key != Documents
    requires |s.bookings| == 1 && {key, Documents} <= s.bookings[0].steps.Keys
    requires s.bookings[0].steps[Documents] == Pending
    ensures Run(EMPTY, OVERSELLING_RUN[..k + 1]) ==
            s.(bookings := [s.bookings[0].(steps := s.bookings[0].steps[key := Done])])
  {
    hide Run;
    RunStep(OVERSELLING_RUN, k, s);
    StepAlone(s, key, Documents);
  }

  lemma FirstSold() returns (s: State)
    ensures s == Run(EMPTY, OVERSELLING_RUN[..2])
    ensures s == State([Package(1, 1, Full)], [Booking("first", 0, PendingPayment, DEFAULT_STEPS)])
  {
    var ops := OVERSELLING_RUN;
    assert ops[..0] == [];
    RunStep(ops, 0, EMPTY);
    RunStep(ops, 1, State([Package(1, 0, Open)], []));
    s := State([Package(1, 1, Full)], [Booking("first", 0, PendingPayment, DEFAULT_STEPS)]);
  }

  lemma SoldAndWaiting() returns (s: State)
    ensures s == Run(EMPTY, OVERSELLING_RUN[..6])
    ensures s == State([Package(1, 1, Full)], [Booking("first", 0, PendingPayment, ALL_BUT_DOCUMENTS)])
  {
    hide Run;
    s := FirstSold();
    RunStepAlone(2, s, Payment);
    s := s.(bookings := [s.bookings[0].(steps := DEFAULT_STEPS[Payment := Done])]);
    RunStepAlone(3, s, Visa);
    s := s.(bookings := [s.bookings[0].(steps := DEFAULT_STEPS[Payment := Done][Visa := Done])]);
    RunStepAlone(4, s, Flight);
    s := s.(bookings := [s.bookings[0].(steps := DEFAULT_STEPS[Payment := Done][Visa := Done][Flight := Done])]);
    RunStepAlone(5, s, Vaccination);
    s := s.(bookings := [s.bookings[0].(steps := ALL_BUT_DOCUMENTS)]);
  }

  lemma Resold() returns (s: State)
    ensures s == Run(EMPTY, OVERSELLING_RUN[..8])
    ensures s == State([Package(1, 1, Full)], [Booking("first", 0, Cancelled, ALL_BUT_DOCUMENTS),
                                               Booking("second", 0, PendingPayment, DEFAULT_STEPS)])
  {
    hide Run, AllDone;
    var ops := OVERSELLING_RUN;
    s := SoldAndWaiting();
    RunStep(ops, 6, s);
    var cancelled := Booking("first", 0, Cancelled, ALL_BUT_DOCUMENTS);
    s := State([Package(1, 0, Open)], [cancelled]);
    RunStep(ops, 7, s);
    s := State([Package(1, 1, Full)], [cancelled, Booking("second", 0, PendingPayment, DEFAULT_STEPS)]);
  }

  /** Revivals do happen: a run from the empty tables ends with two bookings of one seat. */
  lemma RevivalIsReachable()
    ensures var t := Run(EMPTY, OVERSELLING_RUN);
            |t.packages| == 1 && t.packages[0].capacity == 1 && Active(t.bookings, 0) == 2
  {
    hide Run;
    var ops := OVERSELLING_RUN;
    var s := Resold();
    RunStep(ops, 8, s);
    assert ops[..9] == ops;
    var dossier := ALL_BUT_DOCUMENTS[Documents := Done];
    assert AllDone(dossier);
    var revived, second := Booking("first", 0, Confirmed, dossier), s.bookings[1];
    assert Confirm(s.bookings[0].(steps := dossier)) == revived;
    assert Next(s, ops[8]).bookings == [revived, second];
    ActiveAppend([], revived, 0);
    ActiveAppend([revived], second, 0);
    assert [] + [revived] == [revived] && [revived] + [second] == [revived, second];
  }
}
