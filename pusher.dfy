/** The `rooms` store of src/lib/pusher.ts and the helpers that read and change it. The
    store maps a room id to its room; every helper that changes a room replaces that
    room's entry and leaves every other entry alone. */
module Pusher {
  import opened Wrappers
  import opened RoomModel

  /** `generateRoomId`: the game has a single room, so the id it hands out is fixed. */
  function GenerateRoomId(): string {
    MAIN_ROOM_ID
  }

  /** The store after `findOrCreateRoom`: the main room is added, empty and waiting, only
      when it is absent; every room already present is kept as it is. */
  function WithMainRoom(rooms: map<string, Room>): (r: map<string, Room>)
    ensures r.Keys == rooms.Keys + {MAIN_ROOM_ID}
    ensures forall roomId :: roomId in rooms ==> r[roomId] == rooms[roomId]
    ensures MAIN_ROOM_ID !in rooms ==> r[MAIN_ROOM_ID] == EmptyRoom(MAIN_ROOM_ID)
  {
    if MAIN_ROOM_ID in rooms then rooms else rooms[MAIN_ROOM_ID := EmptyRoom(MAIN_ROOM_ID)]
  }

  /** `findOrCreateRoom` is idempotent: a second call finds the room the first one made. */
  lemma WithMainRoomIdempotent(rooms: map<string, Room>)
    ensures WithMainRoom(WithMainRoom(rooms)) == WithMainRoom(rooms)
  {
  }

  /** Every stored room is filed under its own id and keeps the room invariant. */
  ghost predicate ValidRooms(rooms: map<string, Room>) {
    forall roomId :: roomId in rooms ==> rooms[roomId].id == roomId && RoomModel.Valid(rooms[roomId])
  }

  /** Replacing one room by a valid room filed under the same id keeps the store valid. */
  lemma ReplaceRoom(rooms: map<string, Room>, roomId: string, room: Room)
    requires ValidRooms(rooms) && room.id == roomId && RoomModel.Valid(room)
    ensures ValidRooms(rooms[roomId := room])
  {
  }

  class RoomStore {
    var rooms: map<string, Room>

    ghost predicate Valid()
      reads this
    {
      ValidRooms(rooms)
    }

    /** The store starts out empty. */
    constructor ()
      ensures Valid() && rooms == map[]
    {
      rooms := map[];
    }

    method FindOrCreateRoom() returns (roomId: string)
      requires Valid()
      modifies this
      ensures Valid()
      ensures roomId == GenerateRoomId() && roomId in rooms
      ensures rooms == WithMainRoom(old(rooms))
    {
      if MAIN_ROOM_ID !in rooms {
        rooms := rooms[MAIN_ROOM_ID := Room(MAIN_ROOM_ID, [], [], Waiting, None)];
      }
      return MAIN_ROOM_ID;
    }

    /** `getRoomState`: the stored room, or None for an unknown id. A read: it changes
        nothing. */
    function GetRoomState(roomId: string): (r: Option<Room>)
      reads this
      ensures r.None? <==> roomId !in rooms
      ensures r.Some? ==> r.value == rooms[roomId]
      ensures r.Some? && Valid() ==> r.value.id == roomId && RoomModel.Valid(r.value)
    {
      if roomId in rooms then Some(rooms[roomId]) else None
    }

    /** `addPlayerToRoom`. `freshId` stands for the random id the helper draws; it must
        not be held by anyone in the room. */
    method AddPlayerToRoom(roomId: string, playerName: string, freshId: string) returns (player: Option<Player>)
      requires Valid()
      requires roomId in rooms ==> !HasId(Members(rooms[roomId]), freshId)
      modifies this
      ensures Valid()
      ensures roomId !in old(rooms) ==> player == None && rooms == old(rooms)
      ensures roomId in old(rooms) ==>
        && player == Some(Player(freshId, playerName, None))
        && rooms == old(rooms)[roomId := RoomModel.Join(old(rooms)[roomId], freshId, playerName)]
    {
      if roomId !in rooms {
        return None;
      }
      var room := rooms[roomId];
      JoinKeepsValid(room, freshId, playerName);
      var p := Player(freshId, playerName, None);
      if |room.players| < ROOM_CAPACITY {
        room := room.(players := room.players + [p]);
      } else {
        room := room.(spectators := room.spectators + [p]);
      }
      rooms := rooms[roomId := room];
      return Some(p);
    }

    /** `removePlayerFromRoom`: true when the room exists and holds `playerId`. */
    method RemovePlayerFromRoom(roomId: string, playerId: string) returns (ok: bool)
      requires Valid()
      modifies this
      ensures Valid()
      ensures ok <==> roomId in old(rooms) && HasId(Members(old(rooms)[roomId]), playerId)
      ensures !ok ==> rooms == old(rooms)
      ensures ok ==> rooms == old(rooms)[roomId := RoomModel.Leave(old(rooms)[roomId], playerId).value]
    {
      if roomId !in rooms {
        return false;
      }
      var room := rooms[roomId];
      ghost var before := room;
      HasIdAppend(room.players, room.spectators, playerId);
      if HasId(Members(room), playerId) {
        LeaveKeepsValid(room, playerId);
      }
      var playerIndex := FindIndex(room.players, playerId);
      if playerIndex != -1 {
        assert RoomModel.Leave(before, playerId) == Some(Vacate(before, playerIndex));
        var players := room.players[..playerIndex] + room.players[playerIndex + 1..];
        var spectators := room.spectators;
        if |spectators| > 0 {
          var promotedSpectator := spectators[0];
          spectators := spectators[1..];
          players := players + [promotedSpectator];
        }
        room := room.(players := players, spectators := spectators);
        if |room.players| == 0 {
          room := room.(status := Waiting, result := None);
        }
        assert room == Vacate(before, playerIndex);
        ReplaceRoom(rooms, roomId, room);
        rooms := rooms[roomId := room];
        return true;
      }
      var spectatorIndex := FindIndex(room.spectators, playerId);
      if spectatorIndex != -1 {
        assert RoomModel.Leave(before, playerId) == Some(Unqueue(before, spectatorIndex));
        room := room.(spectators := room.spectators[..spectatorIndex] + room.spectators[spectatorIndex + 1..]);
        ReplaceRoom(rooms, roomId, room);
        rooms := rooms[roomId := room];
        return true;
      }
      return false;
    }

    /** `submitPlayerNumber`: true when the room exists and `playerId` holds a seat. The
        helper itself does not check the number. */
    method SubmitPlayerNumber(roomId: string, playerId: string, number: int) returns (ok: bool)
      requires Valid()
      modifies this
      ensures Valid()
      ensures ok <==> roomId in old(rooms) && HasId(old(rooms)[roomId].players, playerId)
      ensures !ok ==> rooms == old(rooms)
      ensures ok ==> rooms == old(rooms)[roomId := Submit(old(rooms)[roomId], playerId, number).value]
    {
      if roomId !in rooms {
        return false;
      }
      var room := rooms[roomId];
      var k := FindIndex(room.players, playerId);
      if k == -1 {
        return false;
      }
      SubmitKeepsValid(room, playerId, number);
      room := room.(players := room.players[k := room.players[k].(number := Some(number))]);
      if AllSubmitted(room.players) && |room.players| == ROOM_CAPACITY {
        var numbersMatch := room.players[0].number == room.players[1].number;
        room := room.(status := Completed, result := Some(if numbersMatch then OddsMet else OddsLost));
      }
      rooms := rooms[roomId := room];
      return true;
    }
  }
}
