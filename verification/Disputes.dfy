/**
 * Disputes between a pilgrim and an agency: dialogue first, arbitration by the administration once
 * the pilgrim escalates, and deletion some time after closure. `Apply` is what one request does to
 * the table; the service below updates the table in place and is proved against it.
 */
module Disputes {
  import opened Basics

  const AGENCY_RESPONSE_DAYS: int := 7

  datatype Role = Pilgrim | Agency | Admin

  datatype Status = Open | AgencyResponded | Escalated | Resolved | Closed

  datatype Message = Message(authorId: string, role: Role, createdAt: int, content: string)

  datatype Booking = Booking(pilgrimId: string, agencyOwner: string)

  datatype Dispute = Dispute(bookingId: string, pilgrimId: string, agencyOwner: string, status: Status,
                             decision: Option<string>, escalatedAt: Option<int>, closedAt: Option<int>,
                             createdAt: int, messages: seq<Message>)

  /** Identifiers are never used twice. */
  datatype Table = Table(disputes: map<nat, Dispute>, nextId: nat)

  datatype Error = NotFound | Forbidden | Conflict

  /** The bookings, and the calendar of the server: the instant 24 months before another. */
  datatype World = World(bookings: map<string, Booking>, retentionLimit: int -> int)

  ghost predicate ValidCalendar(w: World) {
    forall at :: w.retentionLimit(at) < at
  }

  datatype Op =
    | Create(userId: string, bookingId: string, message: string)
    | AddMessage(userId: string, role: Role, id: nat, content: string)
    | Resolve(userId: string, id: nat)
    | Escalate(userId: string, id: nat)
    | Decide(adminId: string, id: nat, decision: string)
    | Purge

  predicate Active(s: Status) {
    s == Open || s == AgencyResponded || s == Escalated
  }

  predicate Terminal(s: Status) {
    s == Resolved || s == Closed
  }

  /** The administration only sees a dispute once it is escalated. */
  predicate VisibleToAdmin(s: Status) {
    s == Escalated || s == Closed
  }

  predicate Authorized(d: Dispute, userId: string, role: Role) {
    match role
    case Pilgrim => d.pilgrimId == userId
    case Agency => d.agencyOwner == userId
    case Admin => VisibleToAdmin(d.status)
  }

  function FindAuthorized(t: Table, userId: string, role: Role, id: nat): Result<Dispute, Error> {
    if id !in t.disputes then Err(NotFound)
    else if !Authorized(t.disputes[id], userId, role) then Err(Forbidden)
    else Ok(t.disputes[id])
  }

  predicate HasActive(t: Table, bookingId: string) {
    exists id :: id in t.disputes && t.disputes[id].bookingId == bookingId && Active(t.disputes[id].status)
  }

  /** The dialogue alternates; once escalated, messages no longer move the status. */
  function StatusAfterMessage(s: Status, role: Role): Status {
    if s == Escalated then Escalated else if role == Agency then AgencyResponded else Open
  }

  predicate MayEscalate(d: Dispute, now: int) {
    d.status == AgencyResponded || (d.status == Open && now - d.createdAt >= AGENCY_RESPONSE_DAYS * JOUR_MS)
  }

  predicate Purgeable(d: Dispute, limite: int) {
    Terminal(d.status) && d.closedAt.Some? && d.closedAt.value < limite
  }

  function Put(t: Table, id: nat, d: Dispute): Table {
    t.(disputes := t.disputes[id := d])
  }

  function Apply(w: World, t: Table, op: Op, now: int): Result<Table, Error> {
    match op
    case Create(userId, bookingId, message) =>
      if bookingId !in w.bookings || w.bookings[bookingId].pilgrimId != userId then Err(NotFound)
      else if HasActive(t, bookingId) then Err(Conflict)
      else Ok(Table(t.disputes[t.nextId := Dispute(bookingId, userId, w.bookings[bookingId].agencyOwner, Open, None, None,
                                                   None, now, [Message(userId, Pilgrim, now, message)])],
                    t.nextId + 1))
    case AddMessage(userId, role, id, content) =>
      (match FindAuthorized(t, userId, role, id)
       case Err(e) => Err(e)
       case Ok(d) =>
         if !Active(d.status) then Err(Conflict)
         else Ok(Put(t, id, d.(status := StatusAfterMessage(d.status, role),
                               messages := d.messages + [Message(userId, role, now, content)]))))
    case Resolve(userId, id) =>
      (match FindAuthorized(t, userId, Pilgrim, id)
       case Err(e) => Err(e)
       case Ok(d) =>
         if !Active(d.status) then Err(Conflict)
         else Ok(Put(t, id, d.(status := Resolved, closedAt := Some(now)))))
    case Escalate(userId, id) =>
      (match FindAuthorized(t, userId, Pilgrim, id)
       case Err(e) => Err(e)
       case Ok(d) =>
         if !MayEscalate(d, now) then Err(Conflict)
         else Ok(Put(t, id, d.(status := Escalated, escalatedAt := Some(now)))))
    case Decide(adminId, id, decision) =>
      (match FindAuthorized(t, adminId, Admin, id)
       case Err(e) => Err(e)
       case Ok(d) =>
         if d.status != Escalated then Err(Conflict)
         else Ok(Put(t, id, d.(status := Closed, decision := Some(decision), closedAt := Some(now)))))
    case Purge =>
      Ok(t.(disputes := map id | id in t.disputes && !Purgeable(t.disputes[id], w.retentionLimit(now)) :: t.disputes[id]))
  }

  function Next(w: World, t: Table, op: Op, now: int): Table {
    match Apply(w, t, op, now)
    case Ok(t') => t'
    case Err(_) => t
  }

  // ---------------------------------------------------------------- what every request keeps

  /** An agency message was there, or the agency had had its seven days, when the pilgrim escalated. */
  ghost predicate EscalationWasDue(d: Dispute, at: int) {
    || at >= d.createdAt + AGENCY_RESPONSE_DAYS * JOUR_MS
    || exists k :: 0 <= k < |d.messages| && d.messages[k].role == Agency && d.messages[k].createdAt <= at
  }

  ghost predicate InDialogue(d: Dispute) {
    d.status == Open || d.status == AgencyResponded
  }

  ghost predicate DisputeInv(d: Dispute, now: int) {
    && d.messages != [] && d.messages[0].role == Pilgrim
    && d.createdAt <= now && (forall k | 0 <= k < |d.messages| :: d.messages[k].createdAt <= now)
    && (InDialogue(d) ==> (d.status == AgencyResponded <==> d.messages[|d.messages| - 1].role == Agency))
    && (InDialogue(d) ==> forall k | 0 <= k < |d.messages| :: d.messages[k].role != Admin)
    && (d.closedAt.Some? <==> Terminal(d.status))
    && (d.decision.Some? <==> d.status == Closed)
    && (InDialogue(d) ==> d.escalatedAt.None?)
    && (d.status == Escalated || d.status == Closed ==> d.escalatedAt.Some?)
    && (d.escalatedAt.Some? ==> EscalationWasDue(d, d.escalatedAt.value))
  }

  ghost predicate Inv(t: Table, now: int) {
    && (forall id | id in t.disputes :: id < t.nextId && DisputeInv(t.disputes[id], now))
    && (forall i, j | i in t.disputes && j in t.disputes && i != j ::
          !(t.disputes[i].bookingId == t.disputes[j].bookingId &&
            Active(t.disputes[i].status) && Active(t.disputes[j].status)))
  }

  lemma TimePasses(d: Dispute, before: int, now: int)
    requires DisputeInv(d, before) && before <= now
    ensures DisputeInv(d, now)
  {
  }

  /** Replacing one dispute by a later state of it keeps the table consistent. */
  lemma PutKeepsInv(t: Table, id: nat, d: Dispute, now: int)
    requires Inv(t, now) && id in t.disputes && DisputeInv(d, now)
    requires d.bookingId == t.disputes[id].bookingId && (Active(d.status) ==> Active(t.disputes[id].status))
    ensures Inv(Put(t, id, d), now)
  {
    hide DisputeInv;
  }

  lemma MessageKeepsInv(d: Dispute, userId: string, role: Role, content: string, now: int)
    requires DisputeInv(d, now) && Active(d.status) && Authorized(d, userId, role)
    ensures DisputeInv(d.(status := StatusAfterMessage(d.status, role),
                          messages := d.messages + [Message(userId, role, now, content)]), now)
  {
    var d' := d.(status := StatusAfterMessage(d.status, role),
                 messages := d.messages + [Message(userId, role, now, content)]);
    if d.escalatedAt.Some? && d.escalatedAt.value < d.createdAt + AGENCY_RESPONSE_DAYS * JOUR_MS {
      var k :| 0 <= k < |d.messages| && d.messages[k].role == Agency && d.messages[k].createdAt <= d.escalatedAt.value;
      assert d'.messages[k] == d.messages[k];
    }
  }

  lemma EscalationKeepsInv(d: Dispute, now: int)
    requires DisputeInv(d, now) && MayEscalate(d, now)
    ensures DisputeInv(d.(status := Escalated, escalatedAt := Some(now)), now)
  {
    if d.status == AgencyResponded {
      assert d.messages[|d.messages| - 1].role == Agency;
    }
  }

  lemma CreationKeepsInv(t: Table, id: nat, d: Dispute, now: int)
    requires Inv(t, now) && id == t.nextId && DisputeInv(d, now) && !HasActive(t, d.bookingId)
    ensures Inv(Table(t.disputes[id := d], id + 1), now)
  {
    hide DisputeInv;
    assert forall i | i in t.disputes :: i < id;
  }

  lemma {:induction false} ApplyKeepsInv(w: World, t: Table, op: Op, before: int, now: int)
    requires Inv(t, before) && before <= now
    ensures Inv(Next(w, t, op, now), now)
  {
    hide DisputeInv;
    forall id | id in t.disputes ensures DisputeInv(t.disputes[id], now) {
      TimePasses(t.disputes[id], before, now);
    }
    assert Inv(t, now);
    match op
    case Create(userId, bookingId, message) =>
      if bookingId in w.bookings && w.bookings[bookingId].pilgrimId == userId && !HasActive(t, bookingId) {
        var d := Dispute(bookingId, userId, w.bookings[bookingId].agencyOwner, Open, None, None, None, now,
                         [Message(userId, Pilgrim, now, message)]);
        NewDisputeInv(d, now);
        CreationKeepsInv(t, t.nextId, d, now);
      }
    case AddMessage(userId, role, id, content) =>
      if FindAuthorized(t, userId, role, id).Ok? && Active(t.disputes[id].status) {
        MessageKeepsInv(t.disputes[id], userId, role, content, now);
        PutKeepsInv(t, id, t.disputes[id].(status := StatusAfterMessage(t.disputes[id].status, role),
                                           messages := t.disputes[id].messages + [Message(userId, role, now, content)]), now);
      }
    case Resolve(userId, id) =>
      if FindAuthorized(t, userId, Pilgrim, id).Ok? && Active(t.disputes[id].status) {
        ClosureKeepsInv(t.disputes[id], now, "");
        PutKeepsInv(t, id, t.disputes[id].(status := Resolved, closedAt := Some(now)), now);
      }
    case Escalate(userId, id) =>
      if FindAuthorized(t, userId, Pilgrim, id).Ok? && MayEscalate(t.disputes[id], now) {
        EscalationKeepsInv(t.disputes[id], now);
        PutKeepsInv(t, id, t.disputes[id].(status := Escalated, escalatedAt := Some(now)), now);
      }
    case Decide(adminId, id, decision) =>
      if FindAuthorized(t, adminId, Admin, id).Ok? && t.disputes[id].status == Escalated {
        ClosureKeepsInv(t.disputes[id], now, decision);
        PutKeepsInv(t, id, t.disputes[id].(status := Closed, decision := Some(decision), closedAt := Some(now)), now);
      }
    case Purge =>
  }

  lemma NewDisputeInv(d: Dispute, now: int)
    requires d.status == Open && d.decision == None && d.escalatedAt == None && d.closedAt == None
    requires d.createdAt == now && |d.messages| == 1 && d.messages[0].role == Pilgrim && d.messages[0].createdAt == now
    ensures DisputeInv(d, now)
  {
  }

  lemma ClosureKeepsInv(d: Dispute, now: int, decision: string)
    requires DisputeInv(d, now) && Active(d.status)
    ensures DisputeInv(d.(status := Resolved, closedAt := Some(now)), now)
    ensures d.status == Escalated ==>
              DisputeInv(d.(status := Closed, decision := Some(decision), closedAt := Some(now)), now)
  {
    if d.escalatedAt.Some? {
      assert EscalationWasDue(d, d.escalatedAt.value);
    }
  }

  // ---------------------------------------------------------------- how a dispute may evolve

  /** Reflexive and transitive: what may happen to a dispute over any number of requests. */
  ghost predicate Evolves(d: Dispute, d': Dispute) {
    && d'.bookingId == d.bookingId && d'.createdAt == d.createdAt
    && d.messages <= d'.messages
    && (d.escalatedAt.Some? ==> d'.escalatedAt == d.escalatedAt)
    && (d.status == Escalated ==> !InDialogue(d'))
    && (Terminal(d.status) ==> d' == d)
  }

  /** One request: a dispute evolves, or is purged, which happens only when it has been closed for more than 24 months. */
  lemma RequestEvolves(w: World, t: Table, op: Op, now: int, id: nat)
    requires Inv(t, now) && id in t.disputes
    ensures var t' := Next(w, t, op, now);
            if id in t'.disputes then Evolves(t.disputes[id], t'.disputes[id])
            else op.Purge? && Purgeable(t.disputes[id], w.retentionLimit(now))
  {
    hide DisputeInv, HasActive;
    EscalatesOnce(t.disputes[id], now);
  }

  lemma EscalatesOnce(d: Dispute, now: int)
    requires DisputeInv(d, now)
    ensures MayEscalate(d, now) ==> d.escalatedAt.None?
  {
  }

  // ---------------------------------------------------------------- runs

  datatype Event = Event(op: Op, at: int)

  ghost predicate InTimeOrder(events: seq<Event>) {
    forall i, j | 0 <= i < j < |events| :: events[i].at <= events[j].at
  }

  function Run(w: World, events: seq<Event>): Table {
    if events == [] then Table(map[], 0)
    else Next(w, Run(w, events[..|events| - 1]), events[|events| - 1].op, events[|events| - 1].at)
  }

  /** In every state of every run: one active dispute a booking, and each dispute is consistent. */
  lemma {:induction false} RunKeepsInv(w: World, events: seq<Event>)
    requires InTimeOrder(events)
    ensures forall now | events == [] || now >= events[|events| - 1].at :: Inv(Run(w, events), now)
  {
    if events != [] {
      var init, last := events[..|events| - 1], events[|events| - 1];
      RunKeepsInv(w, init);
      assert init != [] ==> init[|init| - 1].at <= last.at;
      assert Inv(Run(w, init), last.at);
      forall now | now >= last.at ensures Inv(Run(w, events), now) {
        ApplyKeepsInv(w, Run(w, init), last.op, last.at, last.at);
        var t := Run(w, events);
        forall id | id in t.disputes ensures DisputeInv(t.disputes[id], now) {
          TimePasses(t.disputes[id], last.at, now);
        }
      }
    }
  }

  /** Between any two moments of a run a dispute only evolves: no return to dialogue, no change once closed. */
  lemma {:induction false} RunEvolves(w: World, events: seq<Event>, i: nat, id: nat)
    requires InTimeOrder(events) && i <= |events|
    requires id in Run(w, events[..i]).disputes && id in Run(w, events).disputes
    ensures Evolves(Run(w, events[..i]).disputes[id], Run(w, events).disputes[id])
  {
    hide Apply, DisputeInv, Evolves;
    if i == |events| {
      assert events[..i] == events;
      EvolvesReflexive(Run(w, events).disputes[id]);
    } else {
      var init, last := events[..|events| - 1], events[|events| - 1];
      assert init[..i] == events[..i];
      RunKeepsInv(w, init);
      assert init != [] ==> init[|init| - 1].at <= last.at;
      var t := Run(w, init);
      assert Inv(t, last.at);
      PresentThroughout(w, events, i, id);
      RunEvolves(w, init, i, id);
      RequestEvolves(w, t, last.op, last.at, id);
      EvolvesTransitive(Run(w, events[..i]).disputes[id], t.disputes[id], Run(w, events).disputes[id]);
    }
  }

  lemma EvolvesReflexive(d: Dispute)
    ensures Evolves(d, d)
  {
  }

  lemma EvolvesTransitive(a: Dispute, b: Dispute, c: Dispute)
    requires Evolves(a, b) && Evolves(b, c)
    ensures Evolves(a, c)
  {
  }

  /** An identifier is given once: a dispute present before and after was present all along. */
  lemma {:induction false} PresentThroughout(w: World, events: seq<Event>, i: nat, id: nat)
    requires InTimeOrder(events) && i < |events|
    requires id in Run(w, events[..i]).disputes && id in Run(w, events).disputes
    ensures id in Run(w, events[..|events| - 1]).disputes
  {
    hide DisputeInv;
    var init, last := events[..|events| - 1], events[|events| - 1];
    RunKeepsInv(w, events[..i]);
    NextIdGrows(w, init, i);
    assert init[..i] == events[..i];
    var now := if i == 0 then 0 else events[..i][i - 1].at;
    assert Inv(Run(w, events[..i]), now);
  }

  lemma {:induction false} NextIdGrows(w: World, events: seq<Event>, i: nat)
    requires i <= |events|
    ensures Run(w, events[..i]).nextId <= Run(w, events).nextId
  {
    if i < |events| {
      var init := events[..|events| - 1];
      assert init[..i] == events[..i];
      NextIdGrows(w, init, i);
    } else {
      assert events[..i] == events;
    }
  }

  /** Purged by the `k`-th request: it was there, terminal, and closed more than 24 months before that purge. */
  ghost predicate PurgedAt(w: World, events: seq<Event>, k: nat, id: nat)
    requires k < |events|
  {
    var t := Run(w, events[..k]);
    id in t.disputes && events[k].op.Purge? && Purgeable(t.disputes[id], w.retentionLimit(events[k].at))
  }

  lemma PurgedInPrefix(w: World, events: seq<Event>, k: nat, id: nat)
    requires k < |events| - 1
    ensures PurgedAt(w, events[..|events| - 1], k, id) <==> PurgedAt(w, events, k, id)
  {
    assert events[..|events| - 1][..k] == events[..k];
  }

  lemma PurgeRemoves(w: World, t: Table, now: int, id: nat)
    ensures id in Next(w, t, Purge, now).disputes <==> id in t.disputes && !Purgeable(t.disputes[id], w.retentionLimit(now))
  {
  }

  lemma LastPurge(w: World, events: seq<Event>, id: nat)
    requires events != [] && Inv(Run(w, events[..|events| - 1]), events[|events| - 1].at)
    requires id in Run(w, events[..|events| - 1]).disputes
    ensures id !in Run(w, events).disputes <==> PurgedAt(w, events, |events| - 1, id)
  {
    hide Apply, Next, Inv, Purgeable, Evolves;
    var t, last := Run(w, events[..|events| - 1]), events[|events| - 1];
    RequestEvolves(w, t, last.op, last.at, id);
    PurgeRemoves(w, t, last.at, id);
  }

  /**
   * A dispute is gone later in a run if and only if some purge meanwhile found it terminal and closed for
   * more than 24 months: nothing else deletes one, and its identifier never comes back.
   */
  lemma {:induction false} GoneIffPurged(w: World, events: seq<Event>, i: nat, id: nat)
    requires InTimeOrder(events) && i <= |events| && id in Run(w, events[..i]).disputes
    ensures id !in Run(w, events).disputes <==> exists k :: i <= k < |events| && PurgedAt(w, events, k, id)
  {
    hide Run, PurgedAt, Inv;
    if i == |events| {
      assert events[..i] == events;
    } else {
      var n := |events| - 1;
      var init := events[..n];
      assert init[..i] == events[..i];
      GoneIffPurged(w, init, i, id);
      forall k: nat | k < n ensures PurgedAt(w, init, k, id) <==> PurgedAt(w, events, k, id) {
        PurgedInPrefix(w, events, k, id);
      }
      if id in Run(w, init).disputes {
        RunKeepsInv(w, init);
        assert init != [] ==> init[n - 1].at <= events[n].at;
        LastPurge(w, events, id);
        assert forall k | i <= k < n :: !PurgedAt(w, events, k, id);
      } else {
        var k :| i <= k < n && PurgedAt(w, init, k, id);
        assert PurgedAt(w, events, k, id);
        if id in Run(w, events).disputes {
          PresentThroughout(w, events, i, id);
        }
      }
    }
  }

  /** A closed dispute is still there, unchanged, as long as no purge comes more than 24 months after its closure. */
  lemma KeptWhileRetained(w: World, events: seq<Event>, i: nat, id: nat)
    requires InTimeOrder(events) && i <= |events| && id in Run(w, events[..i]).disputes
    requires var d := Run(w, events[..i]).disputes[id];
             Terminal(d.status) && d.closedAt.Some? &&
             forall k | i <= k < |events| && events[k].op.Purge? :: w.retentionLimit(events[k].at) <= d.closedAt.value
    ensures id in Run(w, events).disputes && Run(w, events).disputes[id] == Run(w, events[..i]).disputes[id]
  {
    hide Run, Inv;
    if k: nat :| i <= k < |events| && PurgedAt(w, events, k, id) {
      var upTo := events[..k];
      assert upTo[..i] == events[..i];
      RunEvolves(w, upTo, i, id);
    }
    GoneIffPurged(w, events, i, id);
    RunEvolves(w, events, i, id);
  }

  /** In particular no purge removes a dispute at the instant of its closure. */
  lemma ClosureIsNotPurgedAtOnce(w: World, events: seq<Event>, i: nat, id: nat)
    requires ValidCalendar(w) && InTimeOrder(events) && i <= |events| && id in Run(w, events[..i]).disputes
    requires var d := Run(w, events[..i]).disputes[id];
             Terminal(d.status) && d.closedAt.Some? && forall k | i <= k < |events| :: events[k].at <= d.closedAt.value
    ensures id in Run(w, events).disputes && Run(w, events).disputes[id] == Run(w, events[..i]).disputes[id]
  {
    forall k | i <= k < |events| ensures w.retentionLimit(events[k].at) <= Run(w, events[..i]).disputes[id].closedAt.value {
      assert w.retentionLimit(events[k].at) < events[k].at;
    }
    KeptWhileRetained(w, events, i, id);
  }

  // ---------------------------------------------------------------- who may do what

  /** A dispute is between the pilgrim of its booking and the owner of its agency, and each message of theirs is theirs. */
  ghost predicate Written(w: World, d: Dispute) {
    && d.bookingId in w.bookings
    && d.pilgrimId == w.bookings[d.bookingId].pilgrimId && d.agencyOwner == w.bookings[d.bookingId].agencyOwner
    && (forall k | 0 <= k < |d.messages| && d.messages[k].role == Pilgrim ::
          d.messages[k].authorId == w.bookings[d.bookingId].pilgrimId)
    && (forall k | 0 <= k < |d.messages| && d.messages[k].role == Agency ::
          d.messages[k].authorId == w.bookings[d.bookingId].agencyOwner)
  }

  lemma StepKeepsAuthors(w: World, t: Table, op: Op, now: int)
    requires forall id | id in t.disputes :: Written(w, t.disputes[id])
    ensures forall id | id in Next(w, t, op, now).disputes :: Written(w, Next(w, t, op, now).disputes[id])
  {
    hide HasActive, MayEscalate, Purgeable;
  }

  /** In every run each message of a pilgrim is by the pilgrim of the booking, each message of an agency by its owner. */
  lemma {:induction false} RunKeepsAuthors(w: World, events: seq<Event>)
    ensures forall id | id in Run(w, events).disputes :: Written(w, Run(w, events).disputes[id])
  {
    if events != [] {
      hide Next, Written;
      RunKeepsAuthors(w, events[..|events| - 1]);
      StepKeepsAuthors(w, Run(w, events[..|events| - 1]), events[|events| - 1].op, events[|events| - 1].at);
    }
  }

  /** A booking has a dispute opened by its own pilgrim, and by nobody else, exactly while it has no other under way. */
  lemma CreateAcceptedIff(w: World, t: Table, userId: string, bookingId: string, message: string, now: int)
    ensures Apply(w, t, Create(userId, bookingId, message), now).Ok? <==>
            bookingId in w.bookings && w.bookings[bookingId].pilgrimId == userId &&
            forall id | id in t.disputes && t.disputes[id].bookingId == bookingId ::
              t.disputes[id].status == Resolved || t.disputes[id].status == Closed
  {
  }

  /** The parties write until the dispute is closed; the administration once it is escalated. */
  lemma MessageAcceptedIff(w: World, t: Table, userId: string, role: Role, id: nat, content: string, now: int)
    requires id in t.disputes && Written(w, t.disputes[id])
    ensures var d, b := t.disputes[id], w.bookings[t.disputes[id].bookingId];
            Apply(w, t, AddMessage(userId, role, id, content), now).Ok? <==>
            match role
            case Pilgrim => userId == b.pilgrimId && d.status != Resolved && d.status != Closed
            case Agency => userId == b.agencyOwner && d.status != Resolved && d.status != Closed
            case Admin => d.status == Escalated
  {
  }

  /** The pilgrim of the booking resolves it until it is closed, and the row says when. */
  lemma ResolveAcceptedIff(w: World, t: Table, userId: string, id: nat, now: int)
    requires id in t.disputes && Written(w, t.disputes[id])
    ensures var d, r := t.disputes[id], Apply(w, t, Resolve(userId, id), now);
            && (r.Ok? <==> userId == w.bookings[d.bookingId].pilgrimId && d.status != Resolved && d.status != Closed)
            && (r.Ok? ==> id in r.value.disputes && r.value.disputes[id].status == Resolved &&
                          r.value.disputes[id].closedAt == Some(now) && r.value.disputes[id].messages == d.messages)
  {
  }

  /**
   * The pilgrim of the booking escalates it once: while it is in dialogue, when the last message is the agency's or
   * seven times 24 hours have passed since it was opened.
   */
  lemma EscalateAcceptedIff(w: World, t: Table, userId: string, id: nat, now: int)
    requires id in t.disputes && Written(w, t.disputes[id]) && DisputeInv(t.disputes[id], now)
    ensures var d, r := t.disputes[id], Apply(w, t, Escalate(userId, id), now);
            && (r.Ok? <==> userId == w.bookings[d.bookingId].pilgrimId && d.escalatedAt == None && d.closedAt == None &&
                           (d.messages[|d.messages| - 1].role == Agency || now - d.createdAt >= 7 * 86_400_000))
            && (r.Ok? ==> id in r.value.disputes && r.value.disputes[id].status == Escalated &&
                          r.value.disputes[id].escalatedAt == Some(now))
  {
  }

  /** The administration decides an escalated dispute, whoever does it for them. */
  lemma DecideAcceptedIff(w: World, t: Table, adminId: string, id: nat, decision: string, now: int)
    requires id in t.disputes
    ensures var r := Apply(w, t, Decide(adminId, id, decision), now);
            && (r.Ok? <==> t.disputes[id].status == Escalated)
            && (r.Ok? ==> id in r.value.disputes && r.value.disputes[id].status == Closed &&
                          r.value.disputes[id].decision == Some(decision) && r.value.disputes[id].closedAt == Some(now))
  {
  }

  /** A stranger is refused as such, an unknown dispute as unknown. */
  lemma StrangersAreForbidden(w: World, t: Table, userId: string, role: Role, id: nat)
    ensures FindAuthorized(t, userId, role, id) == Err(NotFound) <==> id !in t.disputes
    ensures id in t.disputes && Written(w, t.disputes[id]) ==>
              var d, b := t.disputes[id], w.bookings[t.disputes[id].bookingId];
              FindAuthorized(t, userId, role, id) == Err(Forbidden) <==>
              match role
              case Pilgrim => userId != b.pilgrimId
              case Agency => userId != b.agencyOwner
              case Admin => d.status != Escalated && d.status != Closed
  {
  }

  // ---------------------------------------------------------------- the service

  class DisputesService {
    const world: World
    var disputes: map<nat, Dispute>
    var nextId: nat

    function State(): Table
      reads this
    {
      Table(disputes, nextId)
    }

    /** The outcome of a request is the one `Apply` gives, and a refused request changes nothing. */
    twostate predicate Did(op: Op, now: int, new error: Option<Error>)
      reads this
    {
      match Apply(world, old(State()), op, now)
      case Ok(t) => error == None && State() == t
      case Err(e) => error == Some(e) && State() == old(State())
    }

    constructor (world: World)
      ensures this.world == world && State() == Table(map[], 0)
    {
      this.world := world;
      disputes, nextId := map[], 0;
    }

    method FindAuthorizedOrFail(userId: string, role: Role, id: nat) returns (r: Result<Dispute, Error>)
      ensures r == FindAuthorized(State(), userId, role, id)
    {
      if id !in disputes {
        return Err(NotFound);
      }
      var litige := disputes[id];
      var autorise := (role == Pilgrim && litige.pilgrimId == userId) ||
                      (role == Agency && litige.agencyOwner == userId) ||
                      (role == Admin && VisibleToAdmin(litige.status));
      r := if autorise then Ok(litige) else Err(Forbidden);
    }

    method Create(pilgrimId: string, bookingId: string, message: string, now: int) returns (error: Option<Error>)
      modifies this
      ensures Did(Op.Create(pilgrimId, bookingId, message), now, error)
    {
      if bookingId !in world.bookings || world.bookings[bookingId].pilgrimId != pilgrimId {
        return Some(NotFound);
      }
      if exists id :: id in disputes && disputes[id].bookingId == bookingId && Active(disputes[id].status) {
        assert HasActive(State(), bookingId);
        return Some(Conflict);
      }
      disputes := disputes[nextId := Dispute(bookingId, pilgrimId, world.bookings[bookingId].agencyOwner, Open, None, None,
                                             None, now, [Message(pilgrimId, Pilgrim, now, message)])];
      nextId := nextId + 1;
      error := None;
    }

    method AddMessage(userId: string, role: Role, id: nat, content: string, now: int) returns (error: Option<Error>)
      modifies this
      ensures Did(Op.AddMessage(userId, role, id, content), now, error)
    {
      var found := FindAuthorizedOrFail(userId, role, id);
      if found.Err? {
        return Some(found.error);
      }
      var litige := found.value;
      if !Active(litige.status) {
        return Some(Conflict);
      }
      var suivant := if litige.status == Escalated then Escalated else if role == Agency then AgencyResponded else Open;
      disputes := disputes[id := litige.(status := suivant,
                                         messages := litige.messages + [Message(userId, role, now, content)])];
      error := None;
    }

    method Resolve(pilgrimId: string, id: nat, now: int) returns (error: Option<Error>)
      modifies this
      ensures Did(Op.Resolve(pilgrimId, id), now, error)
    {
      var found := FindAuthorizedOrFail(pilgrimId, Pilgrim, id);
      if found.Err? {
        return Some(found.error);
      }
      if !Active(found.value.status) {
        return Some(Conflict);
      }
      disputes := disputes[id := found.value.(status := Resolved, closedAt := Some(now))];
      error := None;
    }

    method Escalate(pilgrimId: string, id: nat, now: int) returns (error: Option<Error>)
      modifies this
      ensures Did(Op.Escalate(pilgrimId, id), now, error)
    {
      var found := FindAuthorizedOrFail(pilgrimId, Pilgrim, id);
      if found.Err? {
        return Some(found.error);
      }
      var litige := found.value;
      var delaiEcoule := now - litige.createdAt >= AGENCY_RESPONSE_DAYS * JOUR_MS;
      if litige.status != AgencyResponded && !(litige.status == Open && delaiEcoule) {
        return Some(Conflict);
      }
      disputes := disputes[id := litige.(status := Escalated, escalatedAt := Some(now))];
      error := None;
    }

    method Decide(adminId: string, id: nat, decision: string, now: int) returns (error: Option<Error>)
      modifies this
      ensures Did(Op.Decide(adminId, id, decision), now, error)
    {
      var found := FindAuthorizedOrFail(adminId, Admin, id);
      if found.Err? {
        return Some(found.error);
      }
      if found.value.status != Escalated {
        return Some(Conflict);
      }
      disputes := disputes[id := found.value.(status := Closed, decision := Some(decision), closedAt := Some(now))];
      error := None;
    }

    method PurgeClosedDisputes(now: int) returns (count: nat)
      modifies this
      ensures Did(Op.Purge, now, None)
      ensures count == |old(disputes)| - |disputes|
    {
      var limite := world.retentionLimit(now);
      var kept := map id | id in disputes && !Purgeable(disputes[id], limite) :: disputes[id];
      SubsetSize(kept.Keys, disputes.Keys);
      count := |disputes| - |kept|;
      disputes := kept;
    }
  }
}
