/**
 * Open WebSocket connections by user. The set of a user is shared: the registry holds it, and so does
 * the `disconnect` listener of every socket that was registered while it was current. Entries are
 * removed by those listeners, also while `disconnectUser` walks the very same set.
 */
module Sessions {

  class SocketSet {
    ghost const userId: string
    var sockets: set<nat>

    constructor (userId: string)
      ensures sockets == {} && this.userId == userId
    {
      sockets := {};
      this.userId := userId;
    }
  }

  function SocketsIn(owners: map<nat, string>, userId: string): set<nat> {
    set c | c in owners && owners[c] == userId
  }

  lemma OneMoreSocket(owners: map<nat, string>, client: nat, userId: string, u: string)
    requires client !in owners
    ensures SocketsIn(owners[client := userId], u) == SocketsIn(owners, u) + (if u == userId then {client} else {})
  {
  }

  lemma OneLessSocket(owners: map<nat, string>, client: nat, u: string)
    requires client in owners
    ensures SocketsIn(owners - {client}, u) == SocketsIn(owners, u) - (if u == owners[client] then {client} else {})
  {
  }

  lemma NoSocketLeft(owners: map<nat, string>, client: nat)
    requires client in owners && SocketsIn(owners, owners[client]) <= {client}
    ensures forall c | c in owners && c != client :: owners[c] != owners[client]
  {
    forall c | c in owners && owners[c] == owners[client] ensures c == client {
      assert c in SocketsIn(owners, owners[client]);
    }
  }

  class RealtimeSessionsService {
    var parUtilisateur: map<string, SocketSet>
    /** What the pending `disconnect` listener of every open socket has captured: its user, and his set. */
    var owners: map<nat, string>
    var captured: map<nat, SocketSet>
    ghost var sets: set<SocketSet>

    /** Every listener still holds the current set of its user. */
    ghost predicate Registered()
      reads this
    {
      && (forall u | u in parUtilisateur :: parUtilisateur[u] in sets && parUtilisateur[u].userId == u)
      && (forall c | c in owners ::
            c in captured && owners[c] in parUtilisateur && captured[c] == parUtilisateur[owners[c]])
    }

    /** A user has an entry exactly while some socket of his is open; his set is then the set of his open sockets. */
    ghost predicate Valid()
      reads this, sets
    {
      && Registered()
      && forall u | u in parUtilisateur ::
           parUtilisateur[u].sockets != {} && parUtilisateur[u].sockets == SocketsIn(owners, u)
    }

    constructor ()
      ensures Valid() && owners == map[]
    {
      parUtilisateur, owners, captured, sets := map[], map[], map[], {};
    }

    /** `parUtilisateur.get(userId) ?? new Set()` */
    method SetOf(userId: string) returns (sockets: SocketSet)
      requires Valid()
      modifies `sets
      ensures Valid() && fresh(sets - old(sets)) && old(sets) <= sets && sockets in sets
      ensures sockets.userId == userId && sockets.sockets == SocketsIn(owners, userId)
      ensures userId in parUtilisateur ==> sockets == parUtilisateur[userId]
    {
      SocketsOf(userId);
      hide SocketsIn;
      if userId in parUtilisateur {
        sockets := parUtilisateur[userId];
      } else {
        sockets := new SocketSet(userId);
        sets := sets + {sockets};
      }
    }

    /** A socket is registered once, when it opens. */
    method Register(client: nat, userId: string)
      requires Valid() && client !in owners
      modifies this, sets
      ensures Valid() && fresh(sets - old(sets))
      ensures owners == old(owners)[client := userId]
    {
      hide SocketsIn;
      var sockets := SetOf(userId);
      parUtilisateur := parUtilisateur[userId := sockets];
      owners, captured := owners[client := userId], captured[client := sockets];
      assert Registered();
      sockets.sockets := sockets.sockets + {client};
      forall u | u in parUtilisateur
        ensures parUtilisateur[u].sockets != {} && parUtilisateur[u].sockets == SocketsIn(owners, u)
      {
        OneMoreSocket(old(owners), client, userId, u);
      }
    }

    /** The listener: run once, when the socket closes for whatever reason. */
    method OnDisconnect(client: nat)
      requires Valid() && client in owners
      modifies this, sets
      ensures Valid() && sets == old(sets)
      ensures owners == old(owners) - {client}
      ensures old(captured[client]).sockets == old(captured[client].sockets) - {client}
      ensures parUtilisateur == if old(captured[client].sockets) == {client} then old(parUtilisateur) - {old(owners[client])}
                                else old(parUtilisateur)
    {
      hide SocketsIn;
      var userId, sockets := owners[client], captured[client];
      owners, captured := owners - {client}, captured - {client};
      sockets.sockets := sockets.sockets - {client};
      if sockets.sockets == {} {
        NoSocketLeft(old(owners), client);
        parUtilisateur := parUtilisateur - {userId};
      }
      forall u | u in parUtilisateur ensures parUtilisateur[u].sockets == SocketsIn(owners, u) {
        OneLessSocket(old(owners), client, u);
      }
    }

    /** Closing every socket of a user runs their listeners, which remove each one from the set being walked. */
    method DisconnectUser(userId: string)
      requires Valid()
      modifies this, sets
      ensures Valid() && sets == old(sets) && userId !in parUtilisateur
      ensures owners == old(owners) - SocketsIn(old(owners), userId)
    {
      SocketsOf(userId);
      hide SocketsIn;
      if userId !in parUtilisateur {
        assert owners - {} == owners;
        return;
      }
      var live := parUtilisateur[userId];
      var visited: set<nat> := {};
      assert owners - visited == owners;
      while live.sockets - visited != {}
        invariant Valid() && sets == old(sets)
        invariant owners == old(owners) - visited && SocketsIn(old(owners), userId) == visited + live.sockets
        invariant visited !! live.sockets
        invariant if live.sockets == {} then userId !in parUtilisateur
                  else userId in parUtilisateur && parUtilisateur[userId] == live
        decreases live.sockets - visited
      {
        var client :| client in live.sockets - visited;
        visited := visited + {client};
        MemberIsOwned(userId, client);
        OnDisconnect(client);
      }
    }

    lemma MemberIsOwned(userId: string, client: nat)
      requires Valid() && userId in parUtilisateur && client in parUtilisateur[userId].sockets
      ensures client in owners && owners[client] == userId && captured[client] == parUtilisateur[userId]
    {
    }

    /** The set kept for a user is the set of his open sockets; none is kept when there are none. */
    lemma SocketsOf(userId: string)
      requires Valid()
      ensures userId in parUtilisateur <==> SocketsIn(owners, userId) != {}
      ensures userId in parUtilisateur ==> parUtilisateur[userId].sockets == SocketsIn(owners, userId)
    {
    }
  }
}
