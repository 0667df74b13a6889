/**
 * Single-use WebSocket tickets. The service remembers consumed identifiers only until they expire,
 * counting on expired tickets being refused anyway (the `exp` claim, section 4.1.4 of RFC 7519). The
 * clock is read once to verify and once more to forget; this module proves exactly when that lets a
 * ticket pass twice, and when the service behaves like one that remembers everything.
 */
module Tickets {
  import opened Basics

  /** `genuine` is the verdict of the signature and audience check; `exp` is in seconds. */
  datatype Ticket = Ticket(jti: string, sub: string, exp: int, genuine: bool)

  datatype Refusal = NotConfigured | InvalidOrExpired | AlreadyUsed

  /** What the verification library accepts at `now`, in milliseconds. */
  predicate Verified(t: Ticket, now: int) {
    t.genuine && now / 1000 < t.exp
  }

  /** In milliseconds: a genuine ticket is accepted until the instant it expires, which is excluded. */
  lemma VerifiedIff(t: Ticket, now: int)
    ensures Verified(t, now) <==> t.genuine && now < t.exp * 1000
  {
  }

  function Forget(consommes: map<string, int>, now: int): map<string, int> {
    map jti | jti in consommes && consommes[jti] >= now :: consommes[jti]
  }

  /**
   * One attempt. The ticket is verified at one reading of the clock, asynchronously; expired identifiers
   * are forgotten at a second reading, when the rest runs.
   */
  function Consumption(consommes: map<string, int>, t: Ticket, verifiedAt: int, usedAt: int)
    : (Result<string, Refusal>, map<string, int>)
  {
    if !Verified(t, verifiedAt) then (Err(InvalidOrExpired), consommes)
    else
      var kept := Forget(consommes, usedAt);
      if t.jti in kept then (Err(AlreadyUsed), kept)
      else (Ok(t.sub), kept[t.jti := t.exp * 1000])
  }

  class RealtimeTicketService {
    const ticketSecret: string
    var consommes: map<string, int>

    constructor (ticketSecret: string)
      ensures this.ticketSecret == ticketSecret && consommes == map[]
    {
      this.ticketSecret := ticketSecret;
      consommes := map[];
    }

    /** Other attempts may run between the verification and the rest, which only reads the memory then. */
    method Consume(ticket: Ticket, verifiedAt: int, usedAt: int) returns (r: Result<string, Refusal>)
      modifies this
      ensures ticketSecret == "" ==> r == Err(NotConfigured) && consommes == old(consommes)
      ensures ticketSecret != "" ==> (r, consommes) == Consumption(old(consommes), ticket, verifiedAt, usedAt)
    {
      if ticketSecret == "" {
        return Err(NotConfigured);
      }
      if !Verified(ticket, verifiedAt) {
        return Err(InvalidOrExpired);
      }
      OublierExpires(usedAt);
      if ticket.jti in consommes {
        return Err(AlreadyUsed);
      }
      consommes := consommes[ticket.jti := ticket.exp * 1000];
      r := Ok(ticket.sub);
    }

    method OublierExpires(maintenant: int)
      modifies this
      ensures consommes == Forget(old(consommes), maintenant)
    {
      var remaining := consommes.Keys;
      while remaining != {}
        invariant remaining <= old(consommes).Keys
        invariant forall j :: j in consommes <==>
                              j in old(consommes) && (j in remaining || old(consommes)[j] >= maintenant)
        invariant forall j | j in consommes :: consommes[j] == old(consommes)[j]
        decreases remaining
      {
        var jti :| jti in remaining;
        remaining := remaining - {jti};
        if consommes[jti] < maintenant {
          consommes := consommes - {jti};
        }
      }
    }
  }

  // ---------------------------------------------------------------- runs

  /** Attempts are listed in the order in which they reach the memory. */
  datatype Attempt = Attempt(ticket: Ticket, verifiedAt: int, usedAt: int)

  predicate Valid(a: Attempt) {
    Verified(a.ticket, a.verifiedAt)
  }

  /** Does attempt `a` forget what expires at `expiry`? */
  predicate Forgets(a: Attempt, expiry: int) {
    Valid(a) && expiry < a.usedAt
  }

  function Expiry(a: Attempt): int {
    a.ticket.exp * 1000
  }

  /** The memory of the service after a run. */
  function Memory(attempts: seq<Attempt>): map<string, int> {
    if attempts == [] then map[]
    else
      var last := attempts[|attempts| - 1];
      Consumption(Memory(attempts[..|attempts| - 1]), last.ticket, last.verifiedAt, last.usedAt).1
  }

  /** Is the `i`-th attempt accepted by the service? */
  predicate Accepted(attempts: seq<Attempt>, i: nat)
    requires i < |attempts|
  {
    Consumption(Memory(attempts[..i]), attempts[i].ticket, attempts[i].verifiedAt, attempts[i].usedAt).0.Ok?
  }

  /** A service that forgets nothing accepts a valid ticket when its identifier was never on a valid one before. */
  predicate AcceptedForEver(attempts: seq<Attempt>, i: nat)
    requires i < |attempts|
  {
    Valid(attempts[i]) && forall h | 0 <= h < i :: !SameIdentifier(attempts, h, i)
  }

  /** Two valid attempts with one identifier. */
  predicate SameIdentifier(attempts: seq<Attempt>, i: nat, j: nat)
    requires i < |attempts| && j < |attempts|
  {
    Valid(attempts[i]) && Valid(attempts[j]) && attempts[i].ticket.jti == attempts[j].ticket.jti
  }

  ghost predicate AcceptedTwice(attempts: seq<Attempt>) {
    exists i, j :: 0 <= i < j < |attempts| && Accepted(attempts, i) && Accepted(attempts, j) &&
                   attempts[i].ticket.jti == attempts[j].ticket.jti
  }

  /**
   * Stated on the attempts alone: an identifier comes back after its first valid ticket expired at a
   * reading of the clock that forgets it, be it the reading of the attempt that brings it back.
   */
  ghost predicate ForgottenTooSoon(attempts: seq<Attempt>) {
    exists i, k, j :: 0 <= i < k <= j < |attempts| && AcceptedForEver(attempts, i) && SameIdentifier(attempts, i, j) &&
                      Forgets(attempts[k], Expiry(attempts[i]))
  }

  lemma AcceptedInPrefix(attempts: seq<Attempt>, n: nat, i: nat)
    requires i < n <= |attempts|
    ensures attempts[..n][i] == attempts[i]
    ensures Accepted(attempts[..n], i) <==> Accepted(attempts, i)
  {
    assert attempts[..n][..i] == attempts[..i];
  }

  /** An accepted identifier stays in memory, with its expiry, until an attempt forgets it. */
  lemma {:induction false} KeptUntilForgotten(attempts: seq<Attempt>, i: nat)
    requires i < |attempts| && Accepted(attempts, i)
    requires forall k | i < k < |attempts| :: !Forgets(attempts[k], Expiry(attempts[i]))
    ensures attempts[i].ticket.jti in Memory(attempts)
    ensures Memory(attempts)[attempts[i].ticket.jti] == Expiry(attempts[i])
  {
    var n := |attempts| - 1;
    if i < n {
      AcceptedInPrefix(attempts, n, i);
      assert forall k | i < k < n :: attempts[..n][k] == attempts[k];
      KeptUntilForgotten(attempts[..n], i);
    }
  }

  /** What is in memory was accepted, and nothing forgot it since. */
  lemma {:induction false} MemoryWasAccepted(attempts: seq<Attempt>, jti: string) returns (i: nat)
    requires jti in Memory(attempts)
    ensures i < |attempts| && Accepted(attempts, i) && attempts[i].ticket.jti == jti
    ensures Memory(attempts)[jti] == Expiry(attempts[i])
    ensures forall k | i < k < |attempts| :: !Forgets(attempts[k], Expiry(attempts[i]))
  {
    var n := |attempts| - 1;
    if Accepted(attempts, n) && attempts[n].ticket.jti == jti {
      i := n;
    } else {
      i := MemoryWasAccepted(attempts[..n], jti);
      AcceptedInPrefix(attempts, n, i);
      assert forall k | i < k < n :: attempts[..n][k] == attempts[k];
    }
  }

  lemma AcceptedAgain(attempts: seq<Attempt>, i: nat, j: nat) returns (k: nat)
    requires i < j < |attempts| && Accepted(attempts, i) && Accepted(attempts, j)
    requires attempts[i].ticket.jti == attempts[j].ticket.jti
    ensures i < k <= j && Forgets(attempts[k], Expiry(attempts[i]))
  {
    var before := attempts[..j];
    AcceptedInPrefix(attempts, j, i);
    if m :| i < m < j && Forgets(attempts[m], Expiry(attempts[i])) {
      k := m;
    } else {
      assert forall m | i < m < j :: before[m] == attempts[m];
      KeptUntilForgotten(before, i);
      k := j;
    }
  }

  lemma RefusedIsKept(attempts: seq<Attempt>, j: nat) returns (i: nat)
    requires j < |attempts| && Valid(attempts[j]) && !Accepted(attempts, j)
    ensures i < j && Accepted(attempts, i) && attempts[i].ticket.jti == attempts[j].ticket.jti
    ensures forall k | i < k <= j :: !Forgets(attempts[k], Expiry(attempts[i]))
  {
    var before := attempts[..j];
    i := MemoryWasAccepted(before, attempts[j].ticket.jti);
    AcceptedInPrefix(attempts, j, i);
    assert forall k | i < k < j :: before[k] == attempts[k];
  }

  lemma AcceptedIsValid(attempts: seq<Attempt>, j: nat)
    requires j < |attempts| && Accepted(attempts, j)
    ensures Valid(attempts[j])
  {
  }

  /** An attempt is accepted exactly when it is valid and every earlier acceptance of its identifier was forgotten by then. */
  lemma AcceptedIffForgotten(attempts: seq<Attempt>, j: nat)
    requires j < |attempts|
    ensures Accepted(attempts, j) <==>
            Valid(attempts[j]) &&
            forall i | 0 <= i < j && Accepted(attempts, i) && attempts[i].ticket.jti == attempts[j].ticket.jti ::
              exists k :: i < k <= j && Forgets(attempts[k], Expiry(attempts[i]))
  {
    hide Accepted, Valid, Forgets;
    if Accepted(attempts, j) {
      AcceptedIsValid(attempts, j);
      forall i | 0 <= i < j && Accepted(attempts, i) && attempts[i].ticket.jti == attempts[j].ticket.jti
        ensures exists k :: i < k <= j && Forgets(attempts[k], Expiry(attempts[i]))
      {
        var k := AcceptedAgain(attempts, i, j);
      }
    } else if Valid(attempts[j]) {
      var i := RefusedIsKept(attempts, j);
    }
  }

  // ---------------------------------------------------------------- when an identifier is accepted twice

  /** The first valid attempt with a given identifier, from `from` on. */
  lemma FirstFrom(attempts: seq<Attempt>, start: nat, j: nat) returns (i: nat)
    requires start <= j < |attempts| && Valid(attempts[j])
    ensures start <= i <= j && SameIdentifier(attempts, i, j)
    ensures forall h | start <= h < i :: !SameIdentifier(attempts, h, j)
    decreases j - start
  {
    if SameIdentifier(attempts, start, j) {
      i := start;
    } else {
      i := FirstFrom(attempts, start + 1, j);
    }
  }

  lemma FirstIsAccepted(attempts: seq<Attempt>, i: nat)
    requires i < |attempts| && AcceptedForEver(attempts, i)
    ensures Accepted(attempts, i)
  {
    hide Accepted;
    AcceptedIffForgotten(attempts, i);
    forall h | 0 <= h < i && Accepted(attempts, h) ensures attempts[h].ticket.jti != attempts[i].ticket.jti {
      AcceptedIffForgotten(attempts, h);
      assert !SameIdentifier(attempts, h, i);
    }
  }

  lemma TwiceIsForgotten(attempts: seq<Attempt>, i: nat, j: nat)
    requires i < j < |attempts| && Accepted(attempts, i) && Accepted(attempts, j)
    requires attempts[i].ticket.jti == attempts[j].ticket.jti
    ensures ForgottenTooSoon(attempts)
  {
    hide Accepted;
    AcceptedIffForgotten(attempts, i);
    AcceptedIffForgotten(attempts, j);
    var first := FirstFrom(attempts, 0, j);
    assert SameIdentifier(attempts, i, j);
    assert forall h | 0 <= h < first :: SameIdentifier(attempts, h, first) ==> SameIdentifier(attempts, h, j);
    FirstIsAccepted(attempts, first);
    var k :| first < k <= j && Forgets(attempts[k], Expiry(attempts[first]));
  }

  lemma ForgottenIsTwice(attempts: seq<Attempt>, i: nat, k: nat, j: nat)
    requires i < k <= j < |attempts| && AcceptedForEver(attempts, i) && SameIdentifier(attempts, i, j)
    requires Forgets(attempts[k], Expiry(attempts[i]))
    ensures AcceptedTwice(attempts)
  {
    hide Accepted;
    FirstIsAccepted(attempts, i);
    var again := FirstFrom(attempts, k, j);
    AcceptedIffForgotten(attempts, again);
    if !Accepted(attempts, again) {
      var h :| 0 <= h < again && Accepted(attempts, h) && attempts[h].ticket.jti == attempts[again].ticket.jti &&
               !exists l :: h < l <= again && Forgets(attempts[l], Expiry(attempts[h]));
      AcceptedIffForgotten(attempts, h);
      assert SameIdentifier(attempts, h, j);
      assert !(h == i) by {
        assert i < k <= again && Forgets(attempts[k], Expiry(attempts[i]));
      }
      assert h < i ==> SameIdentifier(attempts, h, i);
    }
  }

  /**
   * In any run whatever, some identifier is accepted twice if and only if one is forgotten too soon:
   * brought back after an attempt forgot its first ticket.
   */
  lemma AcceptedTwiceIffForgottenTooSoon(attempts: seq<Attempt>)
    ensures AcceptedTwice(attempts) <==> ForgottenTooSoon(attempts)
  {
    hide Accepted, AcceptedForEver, SameIdentifier, Forgets;
    if AcceptedTwice(attempts) {
      var i, j :| 0 <= i < j < |attempts| && Accepted(attempts, i) && Accepted(attempts, j) &&
                  attempts[i].ticket.jti == attempts[j].ticket.jti;
      TwiceIsForgotten(attempts, i, j);
    }
    if ForgottenTooSoon(attempts) {
      var i, k, j :| 0 <= i < k <= j < |attempts| && AcceptedForEver(attempts, i) && SameIdentifier(attempts, i, j) &&
                     Forgets(attempts[k], Expiry(attempts[i]));
      ForgottenIsTwice(attempts, i, k, j);
    }
  }

  /** The service that forgets accepts exactly what the one that never forgets accepts, if and only if nothing is forgotten too soon. */
  lemma ForgettingChangesNothing(attempts: seq<Attempt>)
    ensures (forall j | 0 <= j < |attempts| :: Accepted(attempts, j) <==> AcceptedForEver(attempts, j)) <==>
            !ForgottenTooSoon(attempts)
  {
    hide Accepted, ForgottenTooSoon;
    AcceptedTwiceIffForgottenTooSoon(attempts);
    forall j | 0 <= j < |attempts| && AcceptedForEver(attempts, j) ensures Accepted(attempts, j) {
      FirstIsAccepted(attempts, j);
    }
    if j :| 0 <= j < |attempts| && Accepted(attempts, j) && !AcceptedForEver(attempts, j) {
      AcceptedIffForgotten(attempts, j);
      var first := FirstFrom(attempts, 0, j);
      assert forall h | 0 <= h < first :: SameIdentifier(attempts, h, first) ==> SameIdentifier(attempts, h, j);
      FirstIsAccepted(attempts, first);
      assert AcceptedTwice(attempts);
    }
    forall i, j | 0 <= i < j < |attempts| && Accepted(attempts, i) && attempts[i].ticket.jti == attempts[j].ticket.jti
      ensures !AcceptedForEver(attempts, j)
    {
      AcceptedIffForgotten(attempts, i);
      assert Valid(attempts[j]) ==> SameIdentifier(attempts, i, j);
    }
  }

  // ---------------------------------------------------------------- with a clock that does not go back

  /** The clock does not go back, from one attempt to the next and within each. */
  ghost predicate InTimeOrder(attempts: seq<Attempt>) {
    && (forall i | 0 <= i < |attempts| :: attempts[i].verifiedAt <= attempts[i].usedAt)
    && (forall i, j | 0 <= i < j < |attempts| :: attempts[i].usedAt <= attempts[j].usedAt)
  }

  /** An identifier is issued once, so its genuine tickets expire together. */
  ghost predicate IssuedOnce(attempts: seq<Attempt>) {
    forall i, j | 0 <= i < j < |attempts| ::
      attempts[i].ticket.genuine && attempts[j].ticket.genuine && attempts[i].ticket.jti == attempts[j].ticket.jti ==>
        attempts[i].ticket.exp == attempts[j].ticket.exp
  }

  /** A replay verified before the ticket expires and used after. */
  ghost predicate LateReplay(attempts: seq<Attempt>) {
    exists i, j :: 0 <= i < j < |attempts| && SameIdentifier(attempts, i, j) && Expiry(attempts[j]) < attempts[j].usedAt
  }

  /** With such a clock and identifiers issued once, the only way to use a ticket twice is a late replay. */
  lemma AcceptedTwiceIffLateReplay(attempts: seq<Attempt>)
    requires InTimeOrder(attempts) && IssuedOnce(attempts)
    ensures AcceptedTwice(attempts) <==> LateReplay(attempts)
  {
    hide Accepted, AcceptedTwice;
    AcceptedTwiceIffForgottenTooSoon(attempts);
    if ForgottenTooSoon(attempts) {
      var i, k, j :| 0 <= i < k <= j < |attempts| && AcceptedForEver(attempts, i) && SameIdentifier(attempts, i, j) &&
                     Forgets(attempts[k], Expiry(attempts[i]));
      assert attempts[k].usedAt <= attempts[j].usedAt && Expiry(attempts[j]) == Expiry(attempts[i]);
    }
    if LateReplay(attempts) {
      var i, j :| 0 <= i < j < |attempts| && SameIdentifier(attempts, i, j) && Expiry(attempts[j]) < attempts[j].usedAt;
      var first := FirstFrom(attempts, 0, j);
      assert forall h | 0 <= h < first :: SameIdentifier(attempts, h, first) ==> SameIdentifier(attempts, h, j);
      assert AcceptedForEver(attempts, first) && Expiry(attempts[first]) == Expiry(attempts[j]);
      assert Forgets(attempts[j], Expiry(attempts[first]));
    }
  }

  /** No ticket is accepted twice where each attempt is used before its ticket expires, as when the two readings agree. */
  lemma NeverAcceptedTwice(attempts: seq<Attempt>, i: nat, j: nat)
    requires InTimeOrder(attempts) && IssuedOnce(attempts) && i < j < |attempts|
    requires forall k | 0 <= k < |attempts| && Valid(attempts[k]) :: attempts[k].usedAt <= Expiry(attempts[k])
    requires Accepted(attempts, i) && Accepted(attempts, j)
    ensures attempts[i].ticket.jti != attempts[j].ticket.jti
  {
    hide Accepted;
    AcceptedTwiceIffLateReplay(attempts);
  }

  /**
   * After a valid attempt the memory holds nothing that had expired when it was used, but for the
   * identifier just added, which may expire between the two readings.
   */
  lemma OnlyUnexpiredRetained(consommes: map<string, int>, t: Ticket, verifiedAt: int, usedAt: int)
    requires Verified(t, verifiedAt)
    ensures var (r, after) := Consumption(consommes, t, verifiedAt, usedAt);
            forall jti | jti in after :: after[jti] >= usedAt ||
                                         (r.Ok? && jti == t.jti && after[jti] == t.exp * 1000 > verifiedAt)
    ensures var (r, after) := Consumption(consommes, t, verifiedAt, usedAt);
            t.jti in after && (r.Ok? ==> r.value == t.sub)
  {
  }

  // ---------------------------------------------------------------- each way happens

  lemma MemoryOfOne(a: Attempt)
    requires Valid(a)
    ensures Memory([a]) == map[a.ticket.jti := Expiry(a)]
  {
    assert [a][..0] == [];
  }

  /** Clock in order, identifier issued once: the replay is verified one millisecond before expiry and used one after. */
  lemma UsedAfterExpiry()
    ensures var t := Ticket("a", "", 1, true);
            var run := [Attempt(t, 0, 0), Attempt(t, 999, 1001)];
            InTimeOrder(run) && IssuedOnce(run) && Accepted(run, 0) && Accepted(run, 1)
  {
    var t := Ticket("a", "", 1, true);
    var run := [Attempt(t, 0, 0), Attempt(t, 999, 1001)];
    assert run[..0] == [] && run[..1] == [Attempt(t, 0, 0)];
    MemoryOfOne(Attempt(t, 0, 0));
  }

  /** With a clock set back a ticket passes twice. */
  lemma ClockSetBack()
    ensures var t, u := Ticket("a", "", 1, true), Ticket("b", "", 9, true);
            var run := [Attempt(t, 0, 0), Attempt(u, 2000, 2000), Attempt(t, 500, 500)];
            IssuedOnce(run) && Accepted(run, 0) && Accepted(run, 2)
  {
    var t, u := Ticket("a", "", 1, true), Ticket("b", "", 9, true);
    var run := [Attempt(t, 0, 0), Attempt(u, 2000, 2000), Attempt(t, 500, 500)];
    assert run[..0] == [] && run[..2] == [Attempt(t, 0, 0), Attempt(u, 2000, 2000)];
    assert run[..2][..1] == [Attempt(t, 0, 0)];
    MemoryOfOne(Attempt(t, 0, 0));
    assert Memory(run[..2]) == map["b" := 9000];
  }

  /** With one identifier on two tickets it is accepted twice. */
  lemma IdentifierIssuedTwice()
    ensures var t, u := Ticket("a", "", 1, true), Ticket("a", "", 9, true);
            var run := [Attempt(t, 0, 0), Attempt(u, 2000, 2000)];
            InTimeOrder(run) && Accepted(run, 0) && Accepted(run, 1)
  {
    var t, u := Ticket("a", "", 1, true), Ticket("a", "", 9, true);
    var run := [Attempt(t, 0, 0), Attempt(u, 2000, 2000)];
    assert run[..0] == [] && run[..1] == [Attempt(t, 0, 0)];
    MemoryOfOne(Attempt(t, 0, 0));
  }
}
