/**
 * The same requests split into their database steps, in any interleaving. `assign` reads the block,
 * takes the row lock of the block, reads the other places, then writes and commits, or aborts.
 * `unassign` takes no lock. `updateBlock` checks first and writes later; its write waits for the lock.
 */
module RoomsInterleaved {
  import opened Basics
  import opened Rooms

  /** How far an `assign` has got; `roomCount` is the value it read before taking the lock. */
  datatype Txn =
    | Started(booking: string, requested: Option<int>, roomCount: nat)
    | Locked(booking: string, requested: Option<int>, roomCount: nat)
    | Looked(booking: string, requested: Option<int>, roomCount: nat, others: Places)

  /** One block: its committed rows, the holder of its row lock, and the requests in progress. */
  datatype Db = Db(roomType: RoomType, roomCount: nat, places: Places, lock: Option<nat>, txns: map<nat, Txn>,
                   updates: map<nat, nat>)

  datatype Step =
    | Start(t: nat, booking: string, requested: Option<int>)
    | Lock(t: nat)
    | Look(t: nat)
    | Finish(t: nat)
    | Crash(t: nat)
    | Unassign(booking: string)
    | CheckUpdate(u: nat, newCount: nat)
    | WriteUpdate(u: nat)

  function Release(s: Db, t: nat): Db {
    s.(lock := if s.lock == Some(t) then None else s.lock, txns := s.txns - {t})
  }

  /** The check of `updateBlock`: no booking is in a room beyond the new number of rooms. */
  predicate CoversPlaces(places: Places, newCount: int) {
    forall b | b in places :: places[b] <= newCount
  }

  /** One step; a step that is not enabled changes nothing. */
  function Next(s: Db, step: Step): Db {
    match step
    case Start(t, booking, requested) =>
      if t in s.txns then s else s.(txns := s.txns[t := Started(booking, requested, s.roomCount)])
    case Lock(t) =>
      if t in s.txns && s.txns[t].Started? && s.lock.None?
      then s.(lock := Some(t), txns := s.txns[t := Locked(s.txns[t].booking, s.txns[t].requested, s.txns[t].roomCount)])
      else s
    case Look(t) =>
      if t in s.txns && s.txns[t].Locked?
      then var x := s.txns[t];
           s.(txns := s.txns[t := Looked(x.booking, x.requested, x.roomCount, s.places - {x.booking})])
      else s
    case Finish(t) =>
      if t in s.txns && s.txns[t].Looked?
      then var x := s.txns[t];
           match Choose(x.others, x.roomCount, Capacite(s.roomType), x.requested)
           case Err(_) => Release(s, t)
           case Ok(n) => Release(s, t).(places := s.places[x.booking := n])
      else s
    case Crash(t) => Release(s, t)
    case Unassign(booking) => s.(places := s.places - {booking})
    case CheckUpdate(u, newCount) =>
      if u !in s.updates && CoversPlaces(s.places, newCount) then s.(updates := s.updates[u := newCount]) else s
    case WriteUpdate(u) =>
      if u in s.updates && s.lock.None? then s.(roomCount := s.updates[u], updates := s.updates - {u}) else s
  }

  function Run(s: Db, steps: seq<Step>): Db {
    if steps == [] then s else Next(Run(s, steps[..|steps| - 1]), steps[|steps| - 1])
  }

  function Empty(roomType: RoomType, roomCount: nat): Db {
    Db(roomType, roomCount, map[], None, map[], map[])
  }

  /** The lock has one holder, and what that holder has seen still covers every other committed place. */
  ghost predicate Inv(s: Db) {
    && WithinBeds(s.places, Capacite(s.roomType))
    && (forall t | t in s.txns && !s.txns[t].Started? :: s.lock == Some(t))
    && (forall t | t in s.txns && s.txns[t].Looked? ::
          forall b | b in s.places && b != s.txns[t].booking ::
            b in s.txns[t].others && s.txns[t].others[b] == s.places[b])
  }

  lemma NextKeepsInv(s: Db, step: Step)
    requires Inv(s)
    ensures Inv(Next(s, step)) && Next(s, step).roomType == s.roomType
  {
    hide Occupation;
    match step
    case Finish(t) =>
      if t in s.txns && s.txns[t].Looked? {
        var x := s.txns[t];
        match Choose(x.others, x.roomCount, Capacite(s.roomType), x.requested)
        case Err(_) =>
        case Ok(n) => PlacingKeepsBeds(s.places, x.others, x.booking, n, Capacite(s.roomType));
      }
    case Unassign(booking) => RemovingKeepsBeds(s.places, {booking}, Capacite(s.roomType));
    case _ =>
  }

  /** Whatever the interleaving of requests, no room ever holds more bookings than it has beds. */
  lemma {:induction false} NoRoomOverfull(roomType: RoomType, roomCount: nat, steps: seq<Step>)
    ensures Inv(Run(Empty(roomType, roomCount), steps))
    ensures Run(Empty(roomType, roomCount), steps).roomType == roomType
    ensures forall n :: Occupation(Run(Empty(roomType, roomCount), steps).places, n) <= Capacite(roomType)
  {
    if steps == [] {
      forall n ensures Occupation(map[], n) == 0 {
        assert Occupants(map[], n) == {};
      }
    } else {
      NoRoomOverfull(roomType, roomCount, steps[..|steps| - 1]);
      NextKeepsInv(Run(Empty(roomType, roomCount), steps[..|steps| - 1]), steps[|steps| - 1]);
    }
  }

  // ---------------------------------------------------------------- one request alone

  /** The steps of one `assign`, run to its end. */
  function Alone(t: nat, booking: string, requested: Option<int>): seq<Step> {
    [Start(t, booking, requested), Lock(t), Look(t), Finish(t)]
  }

  lemma RunFour(s: Db, a: Step, b: Step, c: Step, d: Step)
    ensures Run(s, [a, b, c, d]) == Next(Next(Next(Next(s, a), b), c), d)
  {
    assert Run(s, []) == s;
    hide Next, Run;
    RunAppend(s, [], a);
    RunAppend(s, [] + [a], b);
    RunAppend(s, [] + [a] + [b], c);
    RunAppend(s, [] + [a] + [b] + [c], d);
    assert [a, b, c, d] == [] + [a] + [b] + [c] + [d];
  }

  /**
   * An assignment that runs alone does what the serial service does: the room chosen among the present rooms
   * and the other bookings, or nothing; and it leaves no trace but that.
   */
  lemma AloneIsSerial(s: Db, t: nat, booking: string, requested: Option<int>)
    requires s.lock == None && t !in s.txns
    ensures Run(s, Alone(t, booking, requested)) ==
            match Choose(s.places - {booking}, s.roomCount, Capacite(s.roomType), requested)
            case Ok(n) => s.(places := s.places[booking := n])
            case Err(_) => s
  {
    hide Choose, CoversPlaces;
    RunFour(s, Start(t, booking, requested), Lock(t), Look(t), Finish(t));
    hide Run;
    assert s.txns[t := Started(booking, requested, s.roomCount)] - {t} == s.txns;
    var s3 := Next(Next(Next(s, Start(t, booking, requested)), Lock(t)), Look(t));
    assert s3.txns - {t} == s.txns;
  }

  /** A removal alone, an update alone and a crash, as in the serial service. */
  lemma OthersAlone(s: Db, booking: string, u: nat, newCount: nat, t: nat)
    requires s.lock == None && u !in s.updates
    ensures Next(s, Unassign(booking)) == s.(places := s.places - {booking})
    ensures Next(Next(s, CheckUpdate(u, newCount)), WriteUpdate(u)) ==
            if forall b | b in s.places :: s.places[b] <= newCount then s.(roomCount := newCount) else s
    ensures Next(s, Crash(t)).places == s.places && Next(s, Crash(t)).roomCount == s.roomCount &&
            t !in Next(s, Crash(t)).txns && Next(s, Crash(t)).lock == None
  {
    assert s.updates[u := newCount] - {u} == s.updates;
  }

  // ---------------------------------------------------------------- room numbers

  /** Requests name rooms from 1 on. */
  ghost predicate NamesRooms(steps: seq<Step>) {
    forall k | 0 <= k < |steps| :: steps[k].Start? && steps[k].requested.Some? ==> steps[k].requested.value >= 1
  }

  ghost predicate RequestsNameRooms(s: Db) {
    forall t | t in s.txns :: s.txns[t].requested.Some? ==> s.txns[t].requested.value >= 1
  }

  /**
   * The check a step relied on, made earlier, still holds when the step writes: the room given with the number
   * of rooms read is the room that the present number of rooms gives.
   */
  ghost predicate CheckStillHolds(s: Db, step: Step) {
    match step
    case Finish(t) =>
      t in s.txns && s.txns[t].Looked? ==>
        var x := s.txns[t];
        var outcome := Choose(x.others, x.roomCount, Capacite(s.roomType), x.requested);
        outcome.Ok? ==> Choose(x.others, s.roomCount, Capacite(s.roomType), x.requested) == outcome
    case WriteUpdate(u) => u in s.updates && s.lock.None? ==> CoversPlaces(s.places, s.updates[u])
    case _ => true
  }

  ghost predicate NumbersInBlock(s: Db) {
    InRooms(s.places, s.roomCount)
  }

  lemma NextNamesRooms(s: Db, step: Step)
    requires RequestsNameRooms(s) && (step.Start? && step.requested.Some? ==> step.requested.value >= 1)
    ensures RequestsNameRooms(Next(s, step))
  {
    hide Choose, CoversPlaces;
  }

  lemma {:induction false} RunNamesRooms(s: Db, steps: seq<Step>)
    requires NamesRooms(steps) && RequestsNameRooms(s)
    ensures RequestsNameRooms(Run(s, steps))
  {
    if steps != [] {
      hide Next, RequestsNameRooms;
      RunNamesRooms(s, steps[..|steps| - 1]);
      NextNamesRooms(Run(s, steps[..|steps| - 1]), steps[|steps| - 1]);
    }
  }

  lemma {:induction false} FirstFreeOfFewer(places: Places, n: int, read: int, now: int, beds: nat)
    requires FirstFree(places, n, read, beds).Some? && FirstFree(places, n, read, beds).value <= now
    ensures FirstFree(places, n, now, beds) == FirstFree(places, n, read, beds)
    decreases read - n
  {
    FirstFreeIsLowest(places, n, read, beds);
    if Occupation(places, n) >= beds {
      FirstFreeOfFewer(places, n + 1, read, now, beds);
    }
  }

  /** The number of rooms only matters for whether the room it gives is there. */
  lemma SameRoomIffThere(others: Places, read: int, now: int, beds: nat, requested: Option<int>)
    requires Choose(others, read, beds, requested).Ok?
    ensures var n := Choose(others, read, beds, requested).value;
            n <= read && (Choose(others, now, beds, requested) == Ok(n) <==> n <= now)
  {
    hide FirstFree;
    var n := Choose(others, read, beds, requested).value;
    if requested.None? && n <= now {
      FirstFreeOfFewer(others, 1, read, now, beds);
    }
  }

  lemma StepKeepsNumbers(s: Db, step: Step)
    requires NumbersInBlock(s) && RequestsNameRooms(s)
    ensures NumbersInBlock(Next(s, step)) <==> CheckStillHolds(s, step)
  {
    hide Occupation;
    match step
    case Finish(t) =>
      if t in s.txns && s.txns[t].Looked? {
        var x := s.txns[t];
        FirstFreeIsLowest(x.others, 1, x.roomCount, Capacite(s.roomType));
        if Choose(x.others, x.roomCount, Capacite(s.roomType), x.requested).Ok? {
          SameRoomIffThere(x.others, x.roomCount, s.roomCount, Capacite(s.roomType), x.requested);
          assert x.booking in Next(s, step).places;
        }
      }
    case _ =>
  }

  ghost predicate NumbersInBlockAllAlong(s: Db, steps: seq<Step>) {
    NumbersInBlock(Run(s, steps)) && (steps == [] || NumbersInBlockAllAlong(s, steps[..|steps| - 1]))
  }

  ghost predicate ChecksHoldAllAlong(s: Db, steps: seq<Step>) {
    steps == [] ||
    (ChecksHoldAllAlong(s, steps[..|steps| - 1]) && CheckStillHolds(Run(s, steps[..|steps| - 1]), steps[|steps| - 1]))
  }

  /** Room numbers stay within the block all along a run exactly when every check still holds at the time of its write. */
  lemma {:induction false} NumbersStayIffChecksHold(roomType: RoomType, roomCount: nat, steps: seq<Step>)
    requires NamesRooms(steps)
    ensures NumbersInBlockAllAlong(Empty(roomType, roomCount), steps) <==>
            ChecksHoldAllAlong(Empty(roomType, roomCount), steps)
  {
    if steps != [] {
      var s, before := Empty(roomType, roomCount), steps[..|steps| - 1];
      NumbersStayIffChecksHold(roomType, roomCount, before);
      RunNamesRooms(s, before);
      hide Next, NumbersInBlock, CheckStillHolds;
      if NumbersInBlock(Run(s, before)) {
        StepKeepsNumbers(Run(s, before), steps[|steps| - 1]);
      }
    }
  }

  // ---------------------------------------------------------------- which schedules break it

  /** The state before the `k`-th step. */
  function At(s: Db, steps: seq<Step>, k: nat): Db
    requires k <= |steps|
  {
    Run(s, steps[..k])
  }

  lemma AtNext(s: Db, steps: seq<Step>, k: nat)
    requires k < |steps|
    ensures At(s, steps, k + 1) == Next(At(s, steps, k), steps[k])
  {
    assert steps[..k + 1][..k] == steps[..k];
  }

  /** The room that finishing `t` would give. */
  ghost predicate Gives(s: Db, t: nat, n: int) {
    t in s.txns && s.txns[t].Looked? &&
    Choose(s.txns[t].others, s.txns[t].roomCount, Capacite(s.roomType), s.txns[t].requested) == Ok(n)
  }

  /** An `assign` read the number of rooms, then the block shrank below the room that it goes on to give. */
  ghost predicate AssignOvertaken(s: Db, steps: seq<Step>, i: nat, m: nat, k: nat, n: int)
    requires i < m < k < |steps|
  {
    && steps[i].Start? && steps[k] == Finish(steps[i].t) && Gives(At(s, steps, k), steps[i].t, n)
    && (forall l | i < l <= k :: steps[i].t in At(s, steps, l).txns)
    && steps[m].WriteUpdate? && n <= At(s, steps, m).roomCount
    && forall l | m < l <= k :: At(s, steps, l).roomCount < n
  }

  /** An `updateBlock` checked, then a booking was placed beyond its new number of rooms, and it is still there at the write. */
  ghost predicate UpdateOvertaken(s: Db, steps: seq<Step>, i: nat, m: nat, k: nat, booking: string, n: int)
    requires i < m < k < |steps|
  {
    && steps[i].CheckUpdate? && steps[k] == WriteUpdate(steps[i].u) && At(s, steps, k).lock.None?
    && (forall l | i < l <= k :: steps[i].u in At(s, steps, l).updates &&
                                 At(s, steps, l).updates[steps[i].u] == steps[i].newCount)
    && steps[m].Finish? && n > steps[i].newCount
    && forall l | m < l <= k :: booking in At(s, steps, l).places && At(s, steps, l).places[booking] == n
  }

  ghost predicate SomeOvertaken(s: Db, steps: seq<Step>) {
    || (exists i, m, k, n :: 0 <= i < m < k < |steps| && AssignOvertaken(s, steps, i, m, k, n))
    || (exists i, m, k, booking, n :: 0 <= i < m < k < |steps| && UpdateOvertaken(s, steps, i, m, k, booking, n))
  }

  /** What a request has read does not change; it is read when the request starts. */
  lemma ReadOnce(d: Db, step: Step, t: nat)
    requires t in Next(d, step).txns
    ensures if t in d.txns then Next(d, step).txns[t].roomCount == d.txns[t].roomCount
            else step.Start? && step.t == t && Next(d, step).txns[t].roomCount == d.roomCount
  {
    hide Choose, CoversPlaces;
  }

  lemma CheckedOnce(d: Db, step: Step, u: nat)
    requires u in Next(d, step).updates
    ensures if u in d.updates then Next(d, step).updates[u] == d.updates[u]
            else step == CheckUpdate(u, Next(d, step).updates[u]) && CoversPlaces(d.places, Next(d, step).updates[u])
  {
    hide Choose, CoversPlaces;
  }

  lemma {:induction false} WhenStarted(s: Db, steps: seq<Step>, k: nat, t: nat) returns (i: nat)
    requires s.txns == map[] && k <= |steps| && t in At(s, steps, k).txns
    ensures i < k && steps[i].Start? && steps[i].t == t
    ensures At(s, steps, i).roomCount == At(s, steps, k).txns[t].roomCount
    ensures forall l | i < l <= k :: t in At(s, steps, l).txns
  {
    AtStart(s, steps);
    hide Next, At;
    AtNext(s, steps, k - 1);
    ReadOnce(At(s, steps, k - 1), steps[k - 1], t);
    if t in At(s, steps, k - 1).txns {
      i := WhenStarted(s, steps, k - 1, t);
    } else {
      i := k - 1;
    }
  }

  lemma {:induction false} WhenChecked(s: Db, steps: seq<Step>, k: nat, u: nat) returns (i: nat)
    requires s.updates == map[] && k <= |steps| && u in At(s, steps, k).updates
    ensures i < k && steps[i] == CheckUpdate(u, At(s, steps, k).updates[u])
    ensures CoversPlaces(At(s, steps, i).places, At(s, steps, k).updates[u])
    ensures forall l | i < l <= k :: u in At(s, steps, l).updates && At(s, steps, l).updates[u] == At(s, steps, k).updates[u]
  {
    AtStart(s, steps);
    hide Next, At, CoversPlaces;
    AtNext(s, steps, k - 1);
    CheckedOnce(At(s, steps, k - 1), steps[k - 1], u);
    if u in At(s, steps, k - 1).updates {
      i := WhenChecked(s, steps, k - 1, u);
    } else {
      i := k - 1;
    }
  }

  lemma AtStart(s: Db, steps: seq<Step>)
    ensures At(s, steps, 0) == s
  {
    assert steps[..0] == [];
  }

  /** Where the number of rooms last fell below `n`. */
  lemma {:induction false} WhenShrunk(s: Db, steps: seq<Step>, i: nat, k: nat, n: int) returns (m: nat)
    requires i <= k <= |steps| && At(s, steps, i).roomCount >= n > At(s, steps, k).roomCount
    ensures i <= m < k && steps[m].WriteUpdate? && At(s, steps, m).roomCount >= n
    ensures forall l | m < l <= k :: At(s, steps, l).roomCount < n
  {
    AtNext(s, steps, k - 1);
    if At(s, steps, k - 1).roomCount >= n {
      m := k - 1;
    } else {
      m := WhenShrunk(s, steps, i, k - 1, n);
    }
  }

  /** Where a booking was put in the room it is in now. */
  lemma {:induction false} WhenPlaced(s: Db, steps: seq<Step>, i: nat, k: nat, booking: string) returns (m: nat)
    requires i <= k <= |steps| && booking in At(s, steps, k).places
    requires booking in At(s, steps, i).places ==> At(s, steps, i).places[booking] != At(s, steps, k).places[booking]
    ensures i <= m < k && steps[m].Finish?
    ensures forall l | m < l <= k :: booking in At(s, steps, l).places &&
                                     At(s, steps, l).places[booking] == At(s, steps, k).places[booking]
  {
    AtNext(s, steps, k - 1);
    var now := At(s, steps, k).places[booking];
    if booking in At(s, steps, k - 1).places && At(s, steps, k - 1).places[booking] == now {
      m := WhenPlaced(s, steps, i, k - 1, booking);
    } else {
      m := k - 1;
    }
  }

  lemma {:induction false} FailedCheck(s: Db, steps: seq<Step>) returns (k: nat)
    requires !ChecksHoldAllAlong(s, steps)
    ensures k < |steps| && !CheckStillHolds(At(s, steps, k), steps[k])
  {
    var n := |steps| - 1;
    if CheckStillHolds(Run(s, steps[..n]), steps[n]) {
      k := FailedCheck(s, steps[..n]);
      assert steps[..n][..k] == steps[..k];
    } else {
      k := n;
    }
  }

  lemma {:induction false} InBlockAt(s: Db, steps: seq<Step>, k: nat)
    requires NumbersInBlockAllAlong(s, steps) && k <= |steps|
    ensures NumbersInBlock(At(s, steps, k))
  {
    if k < |steps| {
      InBlockAt(s, steps[..|steps| - 1], k);
      assert steps[..|steps| - 1][..k] == steps[..k];
    } else {
      assert steps[..k] == steps;
    }
  }

  lemma FailedFinish(s: Db, steps: seq<Step>, k: nat)
    requires s.txns == map[] && k < |steps| && steps[k].Finish? && !CheckStillHolds(At(s, steps, k), steps[k])
    ensures SomeOvertaken(s, steps)
  {
    var t, d := steps[k].t, At(s, steps, k);
    var x := d.txns[t];
    var n := Choose(x.others, x.roomCount, Capacite(d.roomType), x.requested).value;
    SameRoomIffThere(x.others, x.roomCount, d.roomCount, Capacite(d.roomType), x.requested);
    hide Choose, At;
    var i := WhenStarted(s, steps, k, t);
    var m := WhenShrunk(s, steps, i, k, n);
    assert AssignOvertaken(s, steps, i, m, k, n);
  }

  lemma FailedWrite(s: Db, steps: seq<Step>, k: nat)
    requires s.updates == map[] && k < |steps| && steps[k].WriteUpdate? && !CheckStillHolds(At(s, steps, k), steps[k])
    ensures SomeOvertaken(s, steps)
  {
    hide At;
    var u, d := steps[k].u, At(s, steps, k);
    var booking :| booking in d.places && d.places[booking] > d.updates[u];
    var i := WhenChecked(s, steps, k, u);
    var m := WhenPlaced(s, steps, i, k, booking);
    assert UpdateOvertaken(s, steps, i, m, k, booking, d.places[booking]);
  }

  lemma OvertakenBreaks(s: Db, steps: seq<Step>)
    requires SomeOvertaken(s, steps)
    ensures !NumbersInBlockAllAlong(s, steps)
  {
    hide Choose, Run, AssignOvertaken, UpdateOvertaken;
    if i, m, k, n :| 0 <= i < m < k < |steps| && AssignOvertaken(s, steps, i, m, k, n) {
      AssignBreaks(s, steps, i, m, k, n);
    } else {
      var i, m, k, booking, n :| 0 <= i < m < k < |steps| && UpdateOvertaken(s, steps, i, m, k, booking, n);
      UpdateBreaks(s, steps, i, m, k, booking, n);
    }
  }

  lemma AssignBreaks(s: Db, steps: seq<Step>, i: nat, m: nat, k: nat, n: int)
    requires i < m < k < |steps| && AssignOvertaken(s, steps, i, m, k, n)
    ensures !NumbersInBlockAllAlong(s, steps)
  {
    AtNext(s, steps, k);
    var t := At(s, steps, k + 1);
    hide At, Run;
    var booking := At(s, steps, k).txns[steps[i].t].booking;
    assert booking in t.places && t.places[booking] == n > t.roomCount;
    if NumbersInBlockAllAlong(s, steps) {
      InBlockAt(s, steps, k + 1);
    }
  }

  lemma UpdateBreaks(s: Db, steps: seq<Step>, i: nat, m: nat, k: nat, booking: string, n: int)
    requires i < m < k < |steps| && UpdateOvertaken(s, steps, i, m, k, booking, n)
    ensures !NumbersInBlockAllAlong(s, steps)
  {
    AtNext(s, steps, k);
    var t := At(s, steps, k + 1);
    hide At, Run;
    assert booking in t.places && t.places[booking] == n > t.roomCount;
    if NumbersInBlockAllAlong(s, steps) {
      InBlockAt(s, steps, k + 1);
    }
  }

  /**
   * Room numbers stay within the block all along a schedule if and only if no shrinking update comes between
   * the read and the write of an assignment that gives a room it removes, and no such assignment comes
   * between the check and the write of an update.
   */
  lemma NumbersStayIffNothingOvertaken(roomType: RoomType, roomCount: nat, steps: seq<Step>)
    requires NamesRooms(steps)
    ensures NumbersInBlockAllAlong(Empty(roomType, roomCount), steps) <==> !SomeOvertaken(Empty(roomType, roomCount), steps)
  {
    var s := Empty(roomType, roomCount);
    NumbersStayIffChecksHold(roomType, roomCount, steps);
    if !ChecksHoldAllAlong(s, steps) {
      var k := FailedCheck(s, steps);
      if steps[k].Finish? {
        FailedFinish(s, steps, k);
      } else {
        FailedWrite(s, steps, k);
      }
    }
    if SomeOvertaken(s, steps) {
      OvertakenBreaks(s, steps);
    }
  }

  /**
   * The last step is not a shrinking write, or the check of that write is the step just before and
   * no assignment is in progress: `updateBlock` is then one step as seen by `assign`.
   */
  ghost predicate LastUpdateAtomic(s: Db, steps: seq<Step>)
    requires steps != []
  {
    var n := |steps| - 1;
    var d := Run(s, steps[..n]);
    steps[n].WriteUpdate? && steps[n].u in d.updates && d.updates[steps[n].u] < d.roomCount ==>
      d.txns == map[] && n > 0 && steps[n - 1].CheckUpdate? && steps[n - 1].u == steps[n].u &&
      steps[n].u !in Run(s, steps[..n - 1]).updates
  }

  ghost predicate UpdatesAtomic(s: Db, steps: seq<Step>) {
    steps == [] || (UpdatesAtomic(s, steps[..|steps| - 1]) && LastUpdateAtomic(s, steps))
  }

  ghost predicate NumbersInv(s: Db) {
    && NumbersInBlock(s)
    && RequestsNameRooms(s)
    && (forall t | t in s.txns :: s.txns[t].roomCount <= s.roomCount)
  }

  /** Where no shrinking update overlaps an assignment, every room number stays within the block. */
  lemma {:induction false} NumbersStayInBlock(roomType: RoomType, roomCount: nat, steps: seq<Step>)
    requires NamesRooms(steps) && UpdatesAtomic(Empty(roomType, roomCount), steps)
    ensures NumbersInv(Run(Empty(roomType, roomCount), steps))
  {
    if steps != [] {
      var s, n := Empty(roomType, roomCount), |steps| - 1;
      NumbersStayInBlock(roomType, roomCount, steps[..n]);
      RunNamesRooms(s, steps);
      var d := Run(s, steps[..n]);
      if steps[n].WriteUpdate? && steps[n].u in d.updates && d.updates[steps[n].u] < d.roomCount {
        assert steps[..n][..n - 1] == steps[..n - 1];
        CheckedJustBefore(Run(s, steps[..n - 1]), steps[n].u, steps[n - 1].newCount);
      }
      StepKeepsNumbersInv(d, steps[n]);
    }
  }

  lemma CheckedJustBefore(s: Db, u: nat, newCount: nat)
    requires u !in s.updates && u in Next(s, CheckUpdate(u, newCount)).updates
    ensures var d := Next(s, CheckUpdate(u, newCount)); CoversPlaces(d.places, d.updates[u])
  {
  }

  lemma StepKeepsNumbersInv(d: Db, step: Step)
    requires NumbersInv(d) && RequestsNameRooms(Next(d, step))
    requires step.WriteUpdate? && step.u in d.updates && d.updates[step.u] < d.roomCount ==>
               d.txns == map[] && CoversPlaces(d.places, d.updates[step.u])
    ensures NumbersInv(Next(d, step))
  {
    hide Choose;
    RoomWithinWhatWasRead(d, step);
    StepKeepsNumbers(d, step);
  }

  lemma RoomWithinWhatWasRead(d: Db, step: Step)
    requires step.Finish? && step.t in d.txns && d.txns[step.t].Looked? ==> d.txns[step.t].roomCount <= d.roomCount
    ensures step.Finish? ==> CheckStillHolds(d, step)
  {
    hide FirstFree;
    if step.Finish? && step.t in d.txns && d.txns[step.t].Looked? {
      var x := d.txns[step.t];
      if Choose(x.others, x.roomCount, Capacite(d.roomType), x.requested).Ok? {
        SameRoomIffThere(x.others, x.roomCount, d.roomCount, Capacite(d.roomType), x.requested);
      }
    }
  }

  /**
   * An update between the read of the block and the lock breaks this: the stale number of rooms lets a
   * booking into a room the block no longer has.
   */
  lemma StaleRoomCount()
    ensures var steps := [Start(0, "b", Some(2)), CheckUpdate(1, 1), WriteUpdate(1), Lock(0), Look(0), Finish(0)];
            var s := Run(Empty(Double, 2), steps);
            s.roomCount == 1 && s.places == map["b" := 2] && !InRooms(s.places, s.roomCount)
  {
    var s0 := Empty(Double, 2);
    var p1 := [Start(0, "b", Some(2))];
    var p2 := p1 + [CheckUpdate(1, 1)];
    var p3 := p2 + [WriteUpdate(1)];
    var p4 := p3 + [Lock(0)];
    var p5 := p4 + [Look(0)];
    assert p1[..0] == [];
    assert Run(s0, p1) == s0.(txns := map[0 := Started("b", Some(2), 2)]);
    RunAppend(s0, p1, CheckUpdate(1, 1));
    RunAppend(s0, p2, WriteUpdate(1));
    assert Run(s0, p3) == s0.(roomCount := 1, txns := map[0 := Started("b", Some(2), 2)]);
    RunAppend(s0, p3, Lock(0));
    RunAppend(s0, p4, Look(0));
    RunAppend(s0, p5, Finish(0));
    var seen := Run(s0, p5).txns[0];
    assert seen == Looked("b", Some(2), 2, map[]);
    assert Occupants(map[], 2) == {};
    assert p5 + [Finish(0)] ==
           [Start(0, "b", Some(2)), CheckUpdate(1, 1), WriteUpdate(1), Lock(0), Look(0), Finish(0)];
    assert Run(s0, p5 + [Finish(0)]).places["b"] == 2;
  }

  /** The other way round: an assignment between the check and the write of an update. */
  lemma StaleCheck()
    ensures var steps := [CheckUpdate(1, 1), Start(0, "b", Some(2)), Lock(0), Look(0), Finish(0), WriteUpdate(1)];
            var s := Run(Empty(Double, 2), steps);
            s.roomCount == 1 && s.places == map["b" := 2] && !InRooms(s.places, s.roomCount)
  {
    var s0 := Empty(Double, 2);
    var p1 := [CheckUpdate(1, 1)];
    var p2 := p1 + [Start(0, "b", Some(2))];
    var p3 := p2 + [Lock(0)];
    var p4 := p3 + [Look(0)];
    var p5 := p4 + [Finish(0)];
    assert p1[..0] == [];
    assert Run(s0, p1) == s0.(updates := map[1 := 1]);
    RunAppend(s0, p1, Start(0, "b", Some(2)));
    RunAppend(s0, p2, Lock(0));
    RunAppend(s0, p3, Look(0));
    assert Run(s0, p4).txns[0] == Looked("b", Some(2), 2, map[]);
    assert Occupants(map[], 2) == {};
    RunAppend(s0, p4, Finish(0));
    assert Run(s0, p5).places == map["b" := 2];
    RunAppend(s0, p5, WriteUpdate(1));
    assert p5 + [WriteUpdate(1)] ==
           [CheckUpdate(1, 1), Start(0, "b", Some(2)), Lock(0), Look(0), Finish(0), WriteUpdate(1)];
    assert Run(s0, p5 + [WriteUpdate(1)]).places["b"] == 2;
  }

  lemma RunAppend(s: Db, steps: seq<Step>, step: Step)
    ensures Run(s, steps + [step]) == Next(Run(s, steps), step)
  {
    assert (steps + [step])[..|steps|] == steps;
  }
}
