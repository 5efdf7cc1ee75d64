/** Concrete runs of the room, checked against the transition functions. */
module Scenarios {
  import opened Wrappers
  import opened RoomModel

  const Alice := Player("a", "Alice", None)
  const Bob := Player("b", "Bob", None)
  const Carl := Player("c", "Carl", None)

  /** Alice and Bob seated, Carl queued, nobody has submitted. */
  const Seated := Room(MAIN_ROOM_ID, [Alice, Bob], [Carl], Waiting, None)

  /** Alice and Bob both submitted 5. */
  const BothFive := Room(MAIN_ROOM_ID, [Alice.(number := Some(5)), Bob.(number := Some(5))], [Carl], Completed, Some(OddsMet))

  lemma ThreeJoin()
    ensures Join(Join(Join(EmptyRoom(MAIN_ROOM_ID), "a", "Alice"), "b", "Bob"), "c", "Carl") == Seated
  {
  }

  lemma BothSubmitFive()
    ensures Submit(Seated, "a", 5).Some?
    ensures Submit(Submit(Seated, "a", 5).value, "b", 5) == Some(BothFive)
  {
    assert FindIndex(Seated.players, "a") == 0;
    var r4 := Submit(Seated, "a", 5).value;
    assert r4.players == [Alice.(number := Some(5)), Bob];
    assert FindIndex(r4.players, "b") == 1;
    var ps := [Alice.(number := Some(5)), Bob.(number := Some(5))];
    assert r4.players[1 := r4.players[1].(number := Some(5))] == ps;
    assert AllSubmitted(ps);
  }

  lemma AliceLeavesCompletedRoom()
    ensures Leave(BothFive, "a") == Some(Room(MAIN_ROOM_ID, [Bob.(number := Some(5)), Carl], [], Completed, Some(OddsMet)))
  {
    assert FindIndex(BothFive.players, "a") == 0;
    assert RemoveAt(BothFive.players, 0) == [Bob.(number := Some(5))];
    assert BothFive.spectators[1..] == [];
    assert Vacate(BothFive, 0).players == [Bob.(number := Some(5)), Carl];
  }

  /** Alice and Bob are seated, Carl queues; both seated players submit 5 and the odds
      are met. When Alice then leaves, Carl takes her seat with no number, while the
      status stays completed and the result stays odds-met: a leave resets the room only
      when no player is left. */
  lemma AliceBobCarl()
    ensures
      var r3 := Join(Join(Join(EmptyRoom(MAIN_ROOM_ID), "a", "Alice"), "b", "Bob"), "c", "Carl");
      && r3.players == [Player("a", "Alice", None), Player("b", "Bob", None)]
      && r3.spectators == [Player("c", "Carl", None)]
      && Submit(r3, "a", 5).Some?
      && var r5 := Submit(Submit(r3, "a", 5).value, "b", 5);
      && r5.Some? && r5.value.status == Completed && r5.value.result == Some(OddsMet)
      && var r6 := Leave(r5.value, "a");
      && r6.Some?
      && r6.value.players == [Player("b", "Bob", Some(5)), Player("c", "Carl", None)]
      && r6.value.spectators == []
      && r6.value.status == Completed && r6.value.result == Some(OddsMet)
  {
    ThreeJoin();
    BothSubmitFive();
    AliceLeavesCompletedRoom();
  }

  /** Two seated players submitting 3 and 9 lose the odds. */
  lemma DifferentNumbersLose()
    ensures
      var r := Join(Join(EmptyRoom(MAIN_ROOM_ID), "a", "Alice"), "b", "Bob");
      && Submit(r, "a", 3).Some?
      && var done := Submit(Submit(r, "a", 3).value, "b", 9);
      && done.Some? && done.value.status == Completed && done.value.result == Some(OddsLost)
  {
    var r := Join(Join(EmptyRoom(MAIN_ROOM_ID), "a", "Alice"), "b", "Bob");
    assert FindIndex(r.players, "a") == 0;
    var r1 := Submit(r, "a", 3).value;
    assert FindIndex(r1.players, "b") == 1;
  }

  /** The only seated player leaving empties the table and resets the room. */
  lemma LastPlayerLeaves()
    ensures
      var r := Join(EmptyRoom(MAIN_ROOM_ID), "a", "Alice");
      Leave(r, "a") == Some(EmptyRoom(MAIN_ROOM_ID))
  {
    var r := Join(EmptyRoom(MAIN_ROOM_ID), "a", "Alice");
    assert FindIndex(r.players, "a") == 0;
  }
}
