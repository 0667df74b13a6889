/**
 * Room allotment: bookings of a package are placed in the numbered rooms of a block. This module
 * takes each request as one step; `RoomsInterleaved` splits requests into their database steps.
 */
module Rooms {
  import opened Basics

  datatype RoomType = Double | Triple | Quadruple | Quintuple

  function Capacite(t: RoomType): nat {
    match t
    case Double => 2
    case Triple => 3
    case Quadruple => 4
    case Quintuple => 5
  }

  /** The room of every placed booking: a booking is placed at most once in a block. */
  type Places = map<string, int>

  datatype RoomError =
    | UnknownBlock
    | NotOfThisPackage
    | BookingCancelled
    | AllFull
    | NoSuchRoom
    | RoomFull
    | NotPlaced
    | RoomOccupied(number: int)
    | BlockNotEmpty

  function Occupants(places: Places, n: int): set<string> {
    set b | b in places && places[b] == n
  }

  function Occupation(places: Places, n: int): nat {
    |Occupants(places, n)|
  }

  /** The first room from `n` on with a free bed. */
  function FirstFree(places: Places, n: int, roomCount: int, beds: nat): Option<int>
    decreases roomCount - n
  {
    if n > roomCount then None
    else if Occupation(places, n) < beds then Some(n)
    else FirstFree(places, n + 1, roomCount, beds)
  }

  /** The room given to a booking, `others` being the places of all other bookings. */
  function Choose(others: Places, roomCount: int, beds: nat, requested: Option<int>): Result<int, RoomError> {
    var chambre := if requested.Some? then requested else FirstFree(others, 1, roomCount, beds);
    match chambre
    case None => Err(AllFull)
    case Some(n) =>
      if n > roomCount then Err(NoSuchRoom)
      else if Occupation(others, n) >= beds then Err(RoomFull)
      else Ok(n)
  }

  ghost predicate WithinBeds(places: Places, beds: nat) {
    forall n :: Occupation(places, n) <= beds
  }

  ghost predicate InRooms(places: Places, roomCount: int) {
    forall b | b in places :: 1 <= places[b] <= roomCount
  }

  // ---------------------------------------------------------------- placing one booking

  lemma FewerPlacesFewerOccupants(a: Places, b: Places, n: int)
    requires forall k | k in a :: k in b && a[k] == b[k]
    ensures Occupation(a, n) <= Occupation(b, n)
  {
    SubsetSize(Occupants(a, n), Occupants(b, n));
  }

  /** Placing a booking in a room that has a free bed among the others keeps every room within its beds. */
  lemma PlacingKeepsBeds(places: Places, others: Places, booking: string, n: int, beds: nat)
    requires WithinBeds(places, beds) && Occupation(others, n) < beds
    requires forall b | b in places && b != booking :: b in others && others[b] == places[b]
    ensures WithinBeds(places[booking := n], beds)
  {
    var after := places[booking := n];
    forall m ensures Occupation(after, m) <= beds {
      if m == n {
        assert Occupants(after, n) - {booking} <= Occupants(others, n);
        SubsetSize(Occupants(after, n) - {booking}, Occupants(others, n));
      } else {
        assert Occupants(after, m) <= Occupants(places, m);
        SubsetSize(Occupants(after, m), Occupants(places, m));
        assert Occupation(places, m) <= beds;
      }
    }
  }

  lemma RemovingKeepsBeds(places: Places, gone: set<string>, beds: nat)
    requires WithinBeds(places, beds)
    ensures WithinBeds(places - gone, beds)
  {
    forall n ensures Occupation(places - gone, n) <= beds {
      FewerPlacesFewerOccupants(places - gone, places, n);
      assert Occupation(places, n) <= beds;
    }
  }

  /** The search returns the lowest room with a free bed, and nothing exactly when every room is full. */
  lemma {:induction false} FirstFreeIsLowest(places: Places, n: int, roomCount: int, beds: nat)
    ensures match FirstFree(places, n, roomCount, beds)
            case Some(r) => n <= r <= roomCount && Occupation(places, r) < beds &&
                            forall m | n <= m < r :: Occupation(places, m) >= beds
            case None => forall m | n <= m <= roomCount :: Occupation(places, m) >= beds
    decreases roomCount - n
  {
    if n <= roomCount && Occupation(places, n) >= beds {
      FirstFreeIsLowest(places, n + 1, roomCount, beds);
    }
  }

  // ---------------------------------------------------------------- pigeonhole

  /** Occupants of rooms 1 to `k`, room by room. */
  function BedsTaken(places: Places, k: nat): nat {
    if k == 0 then 0 else BedsTaken(places, k - 1) + Occupation(places, k)
  }

  function PlacedUpTo(places: Places, k: int): set<string> {
    set b | b in places && places[b] <= k
  }

  lemma {:induction false} BedsTakenCountsBookings(places: Places, k: nat)
    requires forall b | b in places :: places[b] >= 1
    ensures BedsTaken(places, k) == |PlacedUpTo(places, k)|
  {
    if k == 0 {
      assert PlacedUpTo(places, 0) == {};
    } else {
      BedsTakenCountsBookings(places, k - 1);
      assert PlacedUpTo(places, k) == PlacedUpTo(places, k - 1) + Occupants(places, k);
    }
  }

  /** Rooms within their beds hold at most `k * beds` bookings, and that many only when all are full. */
  lemma {:induction false} BedsTakenBound(places: Places, k: nat, beds: nat)
    requires WithinBeds(places, beds)
    ensures BedsTaken(places, k) <= k * beds
    ensures BedsTaken(places, k) == k * beds <==> forall n | 1 <= n <= k :: Occupation(places, n) >= beds
  {
    if k > 0 {
      BedsTakenBound(places, k - 1, beds);
      assert Occupation(places, k) <= beds;
      assert k * beds == (k - 1) * beds + beds;
    }
  }

  lemma PlacesAreTaken(places: Places, roomCount: nat)
    requires InRooms(places, roomCount)
    ensures BedsTaken(places, roomCount) == |places|
  {
    BedsTakenCountsBookings(places, roomCount);
    assert PlacedUpTo(places, roomCount) == places.Keys;
  }

  /** Automatic placement fails exactly when the other bookings fill every bed of the block. */
  lemma AutomaticFailsIffFull(others: Places, roomCount: nat, beds: nat)
    requires InRooms(others, roomCount) && WithinBeds(others, beds)
    ensures Choose(others, roomCount, beds, None).Err? <==> |others| == roomCount * beds
  {
    FirstFreeIsLowest(others, 1, roomCount, beds);
    PlacesAreTaken(others, roomCount);
    BedsTakenBound(others, roomCount, beds);
    if FirstFree(others, 1, roomCount, beds).Some? {
      assert Occupation(others, FirstFree(others, 1, roomCount, beds).value) < beds;
    }
  }

  // ---------------------------------------------------------------- the service

  datatype Block = Block(agencyId: string, packageId: string, roomType: RoomType, roomCount: nat, places: Places)

  datatype Reservation = Reservation(agencyId: string, packageId: string, cancelled: bool)

  ghost predicate ValidBlock(b: Block) {
    InRooms(b.places, b.roomCount) && WithinBeds(b.places, Capacite(b.roomType))
  }

  /** `Math.max(0, ...rooms)`. */
  ghost predicate IsLastOccupied(places: Places, last: int) {
    && last >= 0
    && (forall b | b in places :: places[b] <= last)
    && (last == 0 || exists b :: b in places && places[b] == last)
  }

  function AssignOutcome(b: Block, booking: string, reservation: Option<Reservation>, requested: Option<int>)
    : Result<int, RoomError>
  {
    match reservation
    case None => Err(NotOfThisPackage)
    case Some(r) =>
      if r.agencyId != b.agencyId || r.packageId != b.packageId then Err(NotOfThisPackage)
      else if r.cancelled then Err(BookingCancelled)
      else Choose(b.places - {booking}, b.roomCount, Capacite(b.roomType), requested)
  }

  /** Beds of a room, and what its name says: one more from each type to the next, two to begin with. */
  lemma BedsOfTypes()
    ensures Capacite(Double) == 2 && Capacite(Triple) == 3 && Capacite(Quadruple) == 4 && Capacite(Quintuple) == 5
  {
  }

  /**
   * Which requests are accepted, on the rows alone: those of a booking of the package and agency of the block,
   * not cancelled, when the room asked for exists and has a bed left among the other bookings, or, none being
   * asked for, when the other bookings leave a bed in the block.
   */
  lemma AssignAcceptedIff(b: Block, booking: string, reservation: Option<Reservation>, requested: Option<int>)
    requires ValidBlock(b)
    ensures AssignOutcome(b, booking, reservation, requested).Ok? <==>
            && reservation.Some? && reservation.value.agencyId == b.agencyId && reservation.value.packageId == b.packageId
            && !reservation.value.cancelled
            && match requested
               case Some(n) => n <= b.roomCount &&
                               |set k | k in b.places && k != booking && b.places[k] == n| < Capacite(b.roomType)
               case None => |b.places.Keys - {booking}| < b.roomCount * Capacite(b.roomType)
  {
    hide FirstFree, Occupation, WithinBeds, BedsTaken;
    var others := b.places - {booking};
    assert others.Keys == b.places.Keys - {booking};
    match requested
    case Some(n) => OccupantsOfOthers(b.places, booking, n);
    case None => AutomaticAmongOthers(b, booking);
  }

  lemma OccupantsOfOthers(places: Places, booking: string, n: int)
    ensures Occupation(places - {booking}, n) == |set k | k in places && k != booking && places[k] == n|
  {
    assert Occupants(places - {booking}, n) == set k | k in places && k != booking && places[k] == n;
  }

  /** Automatic placement succeeds exactly when the other bookings leave a bed. */
  lemma AutomaticAmongOthers(b: Block, booking: string)
    requires ValidBlock(b)
    ensures Choose(b.places - {booking}, b.roomCount, Capacite(b.roomType), None).Ok? <==>
            |b.places.Keys - {booking}| < b.roomCount * Capacite(b.roomType)
  {
    hide Choose;
    var others, beds := b.places - {booking}, Capacite(b.roomType);
    RemovingKeepsBeds(b.places, {booking}, beds);
    AutomaticFailsIffFull(others, b.roomCount, beds);
    PlacesAreTaken(others, b.roomCount);
    BedsTakenBound(others, b.roomCount, beds);
    assert others.Keys == b.places.Keys - {booking};
  }

  class RoomsService {
    var blocks: map<string, Block>

    ghost predicate Valid()
      reads this
    {
      forall id | id in blocks :: ValidBlock(blocks[id])
    }

    constructor ()
      ensures Valid() && blocks == map[]
    {
      blocks := map[];
    }

    method CreateBlock(id: string, agencyId: string, packageId: string, roomType: RoomType, roomCount: nat)
      requires Valid() && id !in blocks
      modifies this
      ensures Valid()
      ensures blocks == old(blocks)[id := Block(agencyId, packageId, roomType, roomCount, map[])]
    {
      blocks := blocks[id := Block(agencyId, packageId, roomType, roomCount, map[])];
    }

    method Assign(blockId: string, bookingId: string, reservation: Option<Reservation>, roomNumber: Option<int>)
      returns (r: Result<int, RoomError>)
      requires Valid() && (roomNumber.Some? ==> roomNumber.value >= 1)
      modifies this
      ensures Valid()
      ensures r == if blockId in old(blocks) then AssignOutcome(old(blocks)[blockId], bookingId, reservation, roomNumber)
                   else Err(UnknownBlock)
      ensures r.Ok? ==> blockId in old(blocks) &&
                        blocks == old(blocks)[blockId := old(blocks)[blockId].(
                                                          places := old(blocks)[blockId].places[bookingId := r.value])]
      ensures r.Err? ==> blocks == old(blocks)
      ensures r.Ok? && roomNumber.None? ==>
                forall n | 1 <= n < r.value ::
                  Occupation(old(blocks)[blockId].places - {bookingId}, n) == Capacite(old(blocks)[blockId].roomType)
    {
      if blockId !in blocks {
        return Err(UnknownBlock);
      }
      var bloc := blocks[blockId];
      if reservation.None? || reservation.value.agencyId != bloc.agencyId
         || reservation.value.packageId != bloc.packageId {
        return Err(NotOfThisPackage);
      }
      if reservation.value.cancelled {
        return Err(BookingCancelled);
      }
      var parPlace := Capacite(bloc.roomType);
      var others := bloc.places - {bookingId};
      RemovingKeepsBeds(bloc.places, {bookingId}, parPlace);
      FirstFreeIsLowest(others, 1, bloc.roomCount, parPlace);
      r := Choose(others, bloc.roomCount, parPlace, roomNumber);
      if r.Ok? {
        PlacingKeepsBeds(bloc.places, others, bookingId, r.value, parPlace);
        blocks := blocks[blockId := bloc.(places := bloc.places[bookingId := r.value])];
      }
    }

    method Unassign(blockId: string, bookingId: string) returns (r: Result<(), RoomError>)
      requires Valid()
      modifies this
      ensures Valid()
      ensures r == if blockId !in old(blocks) then Err(UnknownBlock)
                   else if bookingId !in old(blocks)[blockId].places then Err(NotPlaced)
                   else Ok(())
      ensures blocks == if r.Ok? then old(blocks)[blockId := old(blocks)[blockId].(
                                                  places := old(blocks)[blockId].places - {bookingId})]
                        else old(blocks)
    {
      if blockId !in blocks {
        return Err(UnknownBlock);
      }
      var bloc := blocks[blockId];
      if bookingId !in bloc.places {
        return Err(NotPlaced);
      }
      RemovingKeepsBeds(bloc.places, {bookingId}, Capacite(bloc.roomType));
      blocks := blocks[blockId := bloc.(places := bloc.places - {bookingId})];
      r := Ok(());
    }

    method LastOccupied(places: Places) returns (last: int)
      requires forall b | b in places :: places[b] >= 1
      ensures IsLastOccupied(places, last)
    {
      last := 0;
      var remaining := places.Keys;
      while remaining != {}
        invariant remaining <= places.Keys
        invariant last >= 0
        invariant forall b | b in places.Keys - remaining :: places[b] <= last
        invariant last == 0 || exists b :: b in places && places[b] == last
        decreases remaining
      {
        var b :| b in remaining;
        last := Max(last, places[b]);
        remaining := remaining - {b};
      }
    }

    method UpdateBlock(blockId: string, roomCount: Option<nat>) returns (r: Result<(), RoomError>)
      requires Valid()
      modifies this
      ensures Valid()
      ensures r == Err(UnknownBlock) <==> blockId !in old(blocks)
      ensures blockId in old(blocks) && r.Err? ==> r.error.RoomOccupied?
      ensures r.Err? && r.error.RoomOccupied? ==> IsLastOccupied(old(blocks)[blockId].places, r.error.number)
      ensures blockId in old(blocks) ==>
                (r.Ok? <==> roomCount.None? || InRooms(old(blocks)[blockId].places, roomCount.value))
      ensures blocks == if r.Ok? && roomCount.Some?
                        then old(blocks)[blockId := old(blocks)[blockId].(roomCount := roomCount.value)]
                        else old(blocks)
    {
      if blockId !in blocks {
        return Err(UnknownBlock);
      }
      var bloc := blocks[blockId];
      var derniereOccupee := LastOccupied(bloc.places);
      if roomCount.Some? {
        if roomCount.value < derniereOccupee {
          return Err(RoomOccupied(derniereOccupee));
        }
        blocks := blocks[blockId := bloc.(roomCount := roomCount.value)];
      }
      r := Ok(());
    }

    method DeleteBlock(blockId: string) returns (r: Result<(), RoomError>)
      requires Valid()
      modifies this
      ensures Valid()
      ensures r == if blockId !in old(blocks) then Err(UnknownBlock)
                   else if old(blocks)[blockId].places != map[] then Err(BlockNotEmpty)
                   else Ok(())
      ensures blocks == if r.Ok? then old(blocks) - {blockId} else old(blocks)
    {
      if blockId !in blocks {
        return Err(UnknownBlock);
      }
      if |blocks[blockId].places| > 0 {
        return Err(BlockNotEmpty);
      }
      blocks := blocks - {blockId};
      r := Ok(());
    }
  }

  // ---------------------------------------------------------------- the block as shown to the agency

  datatype BlockShape = BlockShape(totalBeds: nat, assignedBeds: nat, rooms: seq<set<string>>, unassigned: seq<string>)

  function RoomsOf(places: Places, n: nat): seq<set<string>> {
    if n == 0 then [] else RoomsOf(places, n - 1) + [Occupants(places, n)]
  }

  function NotPlacedIn(reservations: seq<string>, places: Places): seq<string> {
    if reservations == [] then []
    else (if reservations[0] in places then [] else [reservations[0]]) + NotPlacedIn(reservations[1..], places)
  }

  function ToRoomBlockShape(b: Block, reservations: seq<string>): BlockShape {
    BlockShape(b.roomCount * Capacite(b.roomType), |b.places|, RoomsOf(b.places, b.roomCount),
               NotPlacedIn(reservations, b.places))
  }

  function SizesOf(rooms: seq<set<string>>): nat {
    if rooms == [] then 0 else SizesOf(rooms[..|rooms| - 1]) + |rooms[|rooms| - 1]|
  }

  lemma OneMoreRoom(rooms: seq<set<string>>, room: set<string>)
    ensures SizesOf(rooms + [room]) == SizesOf(rooms) + |room|
  {
    assert (rooms + [room])[..|rooms|] == rooms;
  }

  lemma {:induction false} RoomsOfShows(places: Places, n: nat)
    ensures |RoomsOf(places, n)| == n
    ensures forall i | 0 <= i < n :: RoomsOf(places, n)[i] == Occupants(places, i + 1)
    ensures SizesOf(RoomsOf(places, n)) == BedsTaken(places, n)
  {
    if n > 0 {
      RoomsOfShows(places, n - 1);
      OneMoreRoom(RoomsOf(places, n - 1), Occupants(places, n));
      hide Occupants, SizesOf;
    }
  }

  lemma {:induction false} NotPlacedMembers(reservations: seq<string>, places: Places, r: string)
    ensures r in NotPlacedIn(reservations, places) <==> r in reservations && r !in places
  {
    if reservations != [] {
      NotPlacedMembers(reservations[1..], places, r);
    }
  }

  /**
   * A block shows every placed booking in exactly one room, the rooms add up to `assignedBeds`, which
   * never exceeds `totalBeds`, and a booking of the package is shown unassigned exactly when it has no room.
   */
  lemma ShapeAccountsForEveryBooking(b: Block, reservations: seq<string>)
    requires ValidBlock(b)
    ensures var s := ToRoomBlockShape(b, reservations);
            && |s.rooms| == b.roomCount
            && s.totalBeds == b.roomCount * Capacite(b.roomType) && s.assignedBeds == |b.places|
            && SizesOf(s.rooms) == s.assignedBeds <= s.totalBeds
            && (forall i | 0 <= i < |s.rooms| :: |s.rooms[i]| <= Capacite(b.roomType))
            && (forall k | k in b.places :: k in s.rooms[b.places[k] - 1] &&
                             forall i | 0 <= i < |s.rooms| && k in s.rooms[i] :: i == b.places[k] - 1)
            && (forall r | r in reservations :: r in s.unassigned <==> forall i | 0 <= i < |s.rooms| :: r !in s.rooms[i])
  {
    RoomsOfShows(b.places, b.roomCount);
    PlacesAreTaken(b.places, b.roomCount);
    BedsTakenBound(b.places, b.roomCount, Capacite(b.roomType));
    var s := ToRoomBlockShape(b, reservations);
    forall i | 0 <= i < |s.rooms| ensures |s.rooms[i]| <= Capacite(b.roomType) {
      assert Occupation(b.places, i + 1) <= Capacite(b.roomType);
    }
    forall r | r in reservations
      ensures r in s.unassigned <==> forall i | 0 <= i < |s.rooms| :: r !in s.rooms[i]
    {
      NotPlacedMembers(reservations, b.places, r);
      if r in b.places {
        assert r in s.rooms[b.places[r] - 1];
      }
    }
  }
}
