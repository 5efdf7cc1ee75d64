/** The module-level `gameRoom` of the `/api/room` handlers (src/app/api/room/route.ts)
    and the three handlers that change it: POST joins, DELETE leaves, PATCH submits a
    number. Each handler is a method that updates the room in place and is proved
    against the matching transition of `RoomModel`. */
module RoomRoute {
  import opened Wrappers
  import opened RoomModel

  /** The handlers' error replies: 400 and 404. */
  datatype HttpError = BadRequest | NotFound

  /** The body of a successful join. */
  datatype JoinReply = JoinReply(roomId: string, playerId: string, isSpectator: bool)

  /** A request field that passes `!field || typeof field !== 'string'`: present, a
      string, and not empty. `None` stands for a field that is absent or not a string. */
  predicate Truthy(field: Option<string>) {
    field.Some? && field.value != ""
  }

  /** Every recorded number passed the PATCH handler's `number < 1` check. */
  predicate NumbersPositive(ps: seq<Player>) {
    forall i :: 0 <= i < |ps| ==> ps[i].number.None? || ps[i].number.value >= 1
  }

  /** A join keeps the room invariant and records no number. */
  lemma JoinKeepsPositive(r: Room, id: string, name: string)
    requires RoomModel.Valid(r) && NumbersPositive(r.players) && !HasId(Members(r), id)
    ensures RoomModel.Valid(RoomModel.Join(r, id, name))
    ensures NumbersPositive(RoomModel.Join(r, id, name).players)
  {
    JoinKeepsValid(r, id, name);
  }

  /** A leave keeps the room invariant, and the only player it can seat is a spectator,
      who holds no number. */
  lemma LeaveKeepsPositive(r: Room, id: string)
    requires RoomModel.Valid(r) && NumbersPositive(r.players) && HasId(Members(r), id)
    ensures RoomModel.Valid(RoomModel.Leave(r, id).value)
    ensures NumbersPositive(RoomModel.Leave(r, id).value.players)
  {
    LeaveKeepsValid(r, id);
    var k := FindIndex(r.players, id);
    if k != -1 {
      var ps := Vacate(r, k).players;
      forall i | 0 <= i < |ps| ensures ps[i].number.None? || ps[i].number.value >= 1 {
        if i >= |r.players| - 1 {
          assert ps[i] == r.spectators[0];
        } else {
          assert ps[i] == r.players[if i < k then i else i + 1];
        }
      }
    }
  }

  /** A submit that passed the `number < 1` check keeps the room invariant and positive
      numbers. */
  lemma SubmitKeepsPositive(r: Room, id: string, n: int)
    requires RoomModel.Valid(r) && NumbersPositive(r.players) && HasId(r.players, id) && n >= 1
    ensures RoomModel.Valid(Submit(r, id, n).value)
    ensures NumbersPositive(Submit(r, id, n).value.players)
  {
    SubmitKeepsValid(r, id, n);
  }

  class GameRoom {
    const id: string
    var players: seq<Player>
    var spectators: seq<Player>
    var status: Status
    var result: Option<GameResult>

    /** The room as the GET handler returns it. */
    function State(): Room
      reads this
    {
      Room(id, players, spectators, status, result)
    }

    ghost predicate Valid()
      reads this
    {
      RoomModel.Valid(State()) && NumbersPositive(players)
    }

    /** The initial `gameRoom`: `main-room`, empty, waiting, no result. */
    constructor ()
      ensures Valid() && State() == EmptyRoom(MAIN_ROOM_ID)
    {
      id := MAIN_ROOM_ID;
      players := [];
      spectators := [];
      status := Waiting;
      result := None;
    }

    /** POST: join under `name`. `freshId` stands for the random id the handler draws;
        it must not be held by anyone in the room. */
    method Join(name: Option<string>, freshId: string) returns (reply: Result<JoinReply, HttpError>)
      requires Valid() && !HasId(Members(State()), freshId)
      modifies this
      ensures Valid()
      ensures !Truthy(name) ==> reply == Err(BadRequest) && State() == old(State())
      ensures Truthy(name) ==>
        && reply == Ok(JoinReply(id, freshId, |old(players)| >= ROOM_CAPACITY))
        && State() == RoomModel.Join(old(State()), freshId, name.value)
    {
      if !Truthy(name) {
        return Err(BadRequest);
      }
      ghost var before := State();
      JoinKeepsPositive(before, freshId, name.value);
      var player := Player(freshId, name.value, None);
      if |players| < 2 {
        players := players + [player];
        reply := Ok(JoinReply(id, player.id, false));
      } else {
        spectators := spectators + [player];
        reply := Ok(JoinReply(id, player.id, true));
      }
      assert State() == RoomModel.Join(before, freshId, name.value);
    }

    /** DELETE: leave. A body that is not JSON, or has no usable `playerId`, arrives as
        `None`. */
    method Leave(playerId: Option<string>) returns (reply: Outcome<HttpError>)
      requires Valid()
      modifies this
      ensures Valid()
      ensures !Truthy(playerId) ==> reply == Fail(BadRequest) && State() == old(State())
      ensures Truthy(playerId) && RoomModel.Leave(old(State()), playerId.value).None? ==>
        reply == Fail(NotFound) && State() == old(State())
      ensures Truthy(playerId) && RoomModel.Leave(old(State()), playerId.value).Some? ==>
        reply == Pass && State() == RoomModel.Leave(old(State()), playerId.value).value
    {
      if !Truthy(playerId) {
        return Fail(BadRequest);
      }
      var pid := playerId.value;
      ghost var before := State();
      HasIdAppend(players, spectators, pid);
      if HasId(Members(before), pid) {
        LeaveKeepsPositive(before, pid);
      }
      var playerIndex := FindIndex(players, pid);
      if playerIndex != -1 {
        assert RoomModel.Leave(before, pid) == Some(Vacate(before, playerIndex));
        players := players[..playerIndex] + players[playerIndex + 1..];
        if |spectators| > 0 {
          var promotedSpectator := spectators[0];
          spectators := spectators[1..];
          players := players + [promotedSpectator];
        }
        if |players| == 0 {
          status := Waiting;
          result := None;
        }
        assert State() == Vacate(before, playerIndex);
        return Pass;
      }
      var spectatorIndex := FindIndex(spectators, pid);
      if spectatorIndex != -1 {
        assert RoomModel.Leave(before, pid) == Some(Unqueue(before, spectatorIndex));
        spectators := spectators[..spectatorIndex] + spectators[spectatorIndex + 1..];
        assert State() == Unqueue(before, spectatorIndex);
        return Pass;
      }
      return Fail(NotFound);
    }

    /** PATCH: submit `number` for `playerId`. `None` stands for a number that is absent
        or not a number. */
    method SubmitNumber(playerId: Option<string>, number: Option<int>) returns (reply: Outcome<HttpError>)
      requires Valid()
      modifies this
      ensures Valid()
      ensures !Truthy(playerId) ==> reply == Fail(BadRequest) && State() == old(State())
      ensures Truthy(playerId) && (number.None? || number.value < 1) ==>
        reply == Fail(BadRequest) && State() == old(State())
      ensures Truthy(playerId) && number.Some? && number.value >= 1 ==>
        var o := Submit(old(State()), playerId.value, number.value);
        && (o.None? ==> reply == Fail(NotFound) && State() == old(State()))
        && (o.Some? ==> reply == Pass && State() == o.value)
    {
      if !Truthy(playerId) {
        return Fail(BadRequest);
      }
      if number.None? || number.value < 1 {
        return Fail(BadRequest);
      }
      var pid, n := playerId.value, number.value;
      var k := FindIndex(players, pid);
      if k == -1 {
        return Fail(NotFound);
      }
      ghost var before := State();
      SubmitKeepsPositive(before, pid, n);
      players := players[k := players[k].(number := Some(n))];
      if AllSubmitted(players) && |players| == 2 {
        status := Completed;
        var numbersMatch := players[0].number == players[1].number;
        result := Some(if numbersMatch then OddsMet else OddsLost);
      }
      assert State() == Submit(before, pid, n).value;
      return Pass;
    }
  }
}
