/** The single Odds room as a value: who holds the two player seats, who waits in the
    spectator queue, and how the game stands. Both copies of the room logic (the
    `/api/room` handlers and the `rooms` store helpers) are proved against the
    transition functions of this module. */
module RoomModel {
  import opened Wrappers

  /** Number of player seats (`ROOM_CAPACITY`; the literal 2 in the `/api/room` handlers). */
  const ROOM_CAPACITY: nat := 2

  /** The id of the one room the game ever creates. */
  const MAIN_ROOM_ID: string := "main-room"

  /** A participant; `number` is unset until the participant submits one. */
  datatype Player = Player(id: string, name: string, number: Option<int>)

  /** `playing` is declared by the source but never entered. */
  datatype Status = Waiting | Playing | Completed

  datatype GameResult = OddsMet | OddsLost

  datatype Room = Room(
    id: string,
    players: seq<Player>,
    spectators: seq<Player>,
    status: Status,
    result: Option<GameResult>)

  /** A freshly created room: nobody in it, waiting, no result. */
  function EmptyRoom(id: string): Room {
    Room(id, [], [], Waiting, None)
  }

  /** Everyone in the room: the seated players, then the spectator queue. */
  function Members(r: Room): seq<Player> {
    r.players + r.spectators
  }

  /** Some entry of `ps` holds `id`. */
  predicate HasId(ps: seq<Player>, id: string) {
    exists i :: 0 <= i < |ps| && ps[i].id == id
  }

  /** No id is held by two entries of `ps`. */
  predicate UniqueIds(ps: seq<Player>) {
    forall i, j :: 0 <= i < j < |ps| ==> ps[i].id != ps[j].id
  }

  function Min(a: nat, b: nat): nat {
    if a < b then a else b
  }

  function RemoveAt<T>(s: seq<T>, k: nat): seq<T>
    requires k < |s|
  {
    s[..k] + s[k + 1..]
  }

  /** The room invariant kept by every operation: at most two seats are taken, nobody
      queues while a seat is free, ids are unique across both lists, spectators hold no
      number, a result exists exactly when the game is completed, and an empty table is
      waiting. */
  predicate Valid(r: Room) {
    && |r.players| <= ROOM_CAPACITY
    && (r.spectators != [] ==> |r.players| == ROOM_CAPACITY)
    && UniqueIds(Members(r))
    && (forall i :: 0 <= i < |r.spectators| ==> r.spectators[i].number.None?)
    && (r.result.Some? <==> r.status == Completed)
    && (r.players == [] ==> r.status == Waiting)
  }

  /** `findIndex(p => p.id === id)`: the first position holding `id`, or -1. */
  function FindIndex(ps: seq<Player>, id: string): (k: int)
    ensures -1 <= k < |ps|
    ensures k == -1 <==> !HasId(ps, id)
    ensures 0 <= k ==> ps[k].id == id && forall i :: 0 <= i < k ==> ps[i].id != id
  {
    if ps == [] then -1
    else if ps[0].id == id then 0
    else
      var k := FindIndex(ps[1..], id);
      assert HasId(ps, id) ==> HasId(ps[1..], id) by {
        if HasId(ps, id) {
          var i :| 0 <= i < |ps| && ps[i].id == id;
          assert ps[1..][i - 1].id == id;
        }
      }
      if k == -1 then -1 else k + 1
  }

  lemma HasIdAppend(a: seq<Player>, b: seq<Player>, id: string)
    ensures HasId(a + b, id) <==> HasId(a, id) || HasId(b, id)
  {
    if HasId(a + b, id) {
      var i :| 0 <= i < |a + b| && (a + b)[i].id == id;
      if i >= |a| { assert b[i - |a|].id == id; }
    }
    if HasId(a, id) {
      var i :| 0 <= i < |a| && a[i].id == id;
      assert (a + b)[i].id == id;
    }
    if HasId(b, id) {
      var i :| 0 <= i < |b| && b[i].id == id;
      assert (a + b)[|a| + i].id == id;
    }
  }

  /** Admission of a newcomer, who has no number yet: a seat while fewer than
      `ROOM_CAPACITY` are taken, otherwise the tail of the spectator queue. */
  function Join(r: Room, id: string, name: string): (r': Room)
    ensures r'.id == r.id && r'.status == r.status && r'.result == r.result
    ensures multiset(Members(r')) == multiset(Members(r)) + multiset{Player(id, name, None)}
  {
    var p := Player(id, name, None);
    if |r.players| < ROOM_CAPACITY then r.(players := r.players + [p])
    else r.(spectators := r.spectators + [p])
  }

  /** The seated player at `k` leaves: the head of the spectator queue, if any, takes
      the last seat, and the room is reset to waiting without a result when no player
      is left. */
  function Vacate(r: Room, k: nat): (r': Room)
    requires k < |r.players|
    ensures r'.id == r.id
    ensures r'.players == [] ==> r'.status == Waiting && r'.result == None
    ensures r'.players != [] ==> r'.status == r.status && r'.result == r.result
    ensures |r'.spectators| == if r.spectators == [] then 0 else |r.spectators| - 1
  {
    var seated := RemoveAt(r.players, k);
    var promoted :=
      if r.spectators != [] then r.(players := seated + [r.spectators[0]], spectators := r.spectators[1..])
      else r.(players := seated);
    if promoted.players == [] then promoted.(status := Waiting, result := None) else promoted
  }

  /** The spectator at `j` leaves the queue. */
  function Unqueue(r: Room, j: nat): (r': Room)
    requires j < |r.spectators|
    ensures r'.id == r.id && r'.players == r.players && r'.status == r.status && r'.result == r.result
    ensures |r'.spectators| == |r.spectators| - 1
  {
    r.(spectators := RemoveAt(r.spectators, j))
  }

  /** Departure of `id`, looked up among the players first and then among the
      spectators. None when `id` is in neither list. */
  function Leave(r: Room, id: string): (o: Option<Room>)
    ensures o.None? <==> !HasId(Members(r), id)
    ensures o.Some? ==> o.value.id == r.id
  {
    HasIdAppend(r.players, r.spectators, id);
    var k := FindIndex(r.players, id);
    if k != -1 then Some(Vacate(r, k))
    else
      var j := FindIndex(r.spectators, id);
      if j != -1 then Some(Unqueue(r, j)) else None
  }

  predicate AllSubmitted(ps: seq<Player>) {
    forall i :: 0 <= i < |ps| ==> ps[i].number.Some?
  }

  /** The completion check run after every accepted number: with both seats taken and
      both numbers in, the game is completed, and the odds are met exactly when the two
      numbers are equal. Otherwise nothing changes. */
  function Settle(r: Room): (r': Room)
    ensures r'.id == r.id && r'.players == r.players && r'.spectators == r.spectators
    ensures |r.players| == ROOM_CAPACITY && AllSubmitted(r.players) ==>
      && r'.status == Completed
      && (r'.result == Some(OddsMet) <==> r.players[0].number.value == r.players[1].number.value)
      && (r'.result == Some(OddsLost) <==> r.players[0].number.value != r.players[1].number.value)
    ensures !(|r.players| == ROOM_CAPACITY && AllSubmitted(r.players)) ==> r' == r
  {
    if AllSubmitted(r.players) && |r.players| == ROOM_CAPACITY then
      var numbersMatch := r.players[0].number == r.players[1].number;
      r.(status := Completed, result := Some(if numbersMatch then OddsMet else OddsLost))
    else r
  }

  /** A number submitted by `id`: recorded on the first seated player with that id, then
      the completion check runs. None, with nothing recorded, when `id` holds no seat
      (spectators included). */
  function Submit(r: Room, id: string, n: int): (o: Option<Room>)
    ensures o.None? <==> !HasId(r.players, id)
    ensures o.Some? ==> o.value.id == r.id && o.value.spectators == r.spectators
  {
    var k := FindIndex(r.players, id);
    if k == -1 then None
    else Some(Settle(r.(players := r.players[k := r.players[k].(number := Some(n))])))
  }

  // ---------------------------------------------------------------------------
  // Lemmas about the transitions
  // ---------------------------------------------------------------------------

  /** Among unique ids, `FindIndex` finds the one position holding the id. */
  lemma FindIndexUnique(ps: seq<Player>, id: string, k: nat)
    requires UniqueIds(ps) && k < |ps| && ps[k].id == id
    ensures FindIndex(ps, id) == k
  {
    assert HasId(ps, id);
  }

  /** With unique ids, an id held in the tail of a list is not held in its head. */
  lemma UniqueSplit(a: seq<Player>, b: seq<Player>, id: string)
    requires UniqueIds(a + b) && HasId(b, id)
    ensures !HasId(a, id)
  {
    var j :| 0 <= j < |b| && b[j].id == id;
    assert (a + b)[|a| + j] == b[j];
    forall i | 0 <= i < |a| ensures a[i].id != id {
      assert (a + b)[i] == a[i];
    }
  }

  /** With an id held by nobody in `s`, a newcomer appended to `s` is found at the end. */
  lemma FindIndexOfNewcomer(s: seq<Player>, p: Player)
    requires !HasId(s, p.id)
    ensures FindIndex(s + [p], p.id) == |s|
  {
    assert (s + [p])[|s|].id == p.id;
  }

  /** Removing one entry keeps the ids unique and loses exactly that entry. */
  lemma RemoveAtUnique(ps: seq<Player>, k: nat)
    requires k < |ps| && UniqueIds(ps)
    ensures UniqueIds(RemoveAt(ps, k))
    ensures multiset(RemoveAt(ps, k)) == multiset(ps) - multiset{ps[k]}
    ensures !HasId(RemoveAt(ps, k), ps[k].id)
  {
    RemoveAtIds(ps, k);
    assert ps == ps[..k] + [ps[k]] + ps[k + 1..];
  }

  /** Removing one entry keeps the other ids distinct and drops the removed id. */
  lemma RemoveAtIds(ps: seq<Player>, k: nat)
    requires k < |ps| && UniqueIds(ps)
    ensures UniqueIds(RemoveAt(ps, k))
    ensures !HasId(RemoveAt(ps, k), ps[k].id)
  {
    var rest := RemoveAt(ps, k);
    forall i, j | 0 <= i < j < |rest| ensures rest[i].id != rest[j].id {
      var i' := if i < k then i else i + 1;
      var j' := if j < k then j else j + 1;
      assert rest[i] == ps[i'] && rest[j] == ps[j'];
    }
    forall i | 0 <= i < |rest| ensures rest[i].id != ps[k].id {
      var i' := if i < k then i else i + 1;
      assert rest[i] == ps[i'];
    }
  }

  /** Under the invariant the seats are the head of the arrival queue `Members`, and the
      spectator queue is the rest of it. */
  lemma SeatsAreQueueHead(r: Room)
    requires Valid(r)
    ensures r.players == Members(r)[..Min(|Members(r)|, ROOM_CAPACITY)]
    ensures r.spectators == Members(r)[Min(|Members(r)|, ROOM_CAPACITY)..]
  {
  }

  /** Join keeps the invariant and appends the newcomer to the arrival queue. */
  lemma {:induction false} JoinKeepsValid(r: Room, id: string, name: string)
    requires Valid(r) && !HasId(Members(r), id)
    ensures Valid(Join(r, id, name))
    ensures Members(Join(r, id, name)) == Members(r) + [Player(id, name, None)]
  {
    var p := Player(id, name, None);
    var r' := Join(r, id, name);
    if |r.players| < ROOM_CAPACITY {
      assert r.spectators == [];
    }
    var m := Members(r);
    assert Members(r') == m + [p];
    forall i, j | 0 <= i < j < |m| + 1 ensures (m + [p])[i].id != (m + [p])[j].id {
      if j == |m| {
        assert (m + [p])[i] == m[i];
      }
    }
  }

  /** Vacating a seat removes that position from the arrival queue: the promoted
      spectator, appended to the seats, keeps its place in line. */
  lemma {:induction false} VacateQueue(r: Room, k: nat)
    requires k < |r.players|
    ensures Members(Vacate(r, k)) == RemoveAt(Members(r), k)
  {
    if r.spectators != [] {
      assert r.spectators == [r.spectators[0]] + r.spectators[1..];
    }
  }

  /** Vacating a seat keeps ids unique. */
  lemma VacateUnique(r: Room, k: nat)
    requires UniqueIds(Members(r)) && k < |r.players|
    ensures UniqueIds(Members(Vacate(r, k)))
  {
    VacateQueue(r, k);
    RemoveAtUnique(Members(r), k);
  }

  /** Vacating a seat keeps the invariant. */
  lemma {:induction false} VacateKeepsValid(r: Room, k: nat)
    requires Valid(r) && k < |r.players|
    ensures Valid(Vacate(r, k))
  {
    VacateUnique(r, k);
    var r' := Vacate(r, k);
    if r.spectators != [] {
      assert |r'.players| == ROOM_CAPACITY;
      forall t | 0 <= t < |r'.spectators| ensures r'.spectators[t].number.None? {
        assert r'.spectators[t] == r.spectators[t + 1];
      }
    }
  }

  /** Leaving the queue keeps the invariant. */
  lemma {:induction false} UnqueueKeepsValid(r: Room, j: nat)
    requires Valid(r) && j < |r.spectators|
    ensures Valid(Unqueue(r, j))
  {
    var r' := Unqueue(r, j);
    var k := |r.players| + j;
    assert Members(r') == RemoveAt(Members(r), k);
    RemoveAtUnique(Members(r), k);
    forall t | 0 <= t < |r'.spectators| ensures r'.spectators[t].number.None? {
      assert r'.spectators[t] == r.spectators[if t < j then t else t + 1];
    }
  }

  /** When a seated player leaves, exactly that seat is vacated and the head of the
      spectator queue (same id, name and number) takes the last seat; the room is reset
      to waiting without a result if and only if no player is left, and otherwise status
      and result are untouched. */
  lemma {:induction false} LeavePlayer(r: Room, id: string)
    requires Valid(r) && HasId(r.players, id)
    ensures Leave(r, id).Some?
    ensures
      var r' := Leave(r, id).value;
      var k := FindIndex(r.players, id);
      && (r.spectators == [] ==> r'.players == RemoveAt(r.players, k) && r'.spectators == [])
      && (r.spectators != [] ==>
            r'.players == RemoveAt(r.players, k) + [r.spectators[0]] && r'.spectators == r.spectators[1..])
      && (r'.players == [] <==> |r.players| == 1 && r.spectators == [])
      && (r'.players == [] ==> r'.status == Waiting && r'.result == None)
      && (r'.players != [] ==> r'.status == r.status && r'.result == r.result)
  {
  }

  /** When a spectator leaves, only that entry of the queue is removed: the seats, the
      status and the result are untouched. */
  lemma {:induction false} LeaveSpectator(r: Room, id: string)
    requires Valid(r) && HasId(r.spectators, id)
    ensures Leave(r, id).Some?
    ensures
      var r' := Leave(r, id).value;
      && r'.players == r.players && r'.status == r.status && r'.result == r.result
      && r'.spectators == RemoveAt(r.spectators, FindIndex(r.spectators, id))
  {
    UniqueSplit(r.players, r.spectators, id);
  }

  /** Leaving the spectator queue removes that position from the arrival queue. */
  lemma UnqueueQueue(r: Room, j: nat)
    requires j < |r.spectators|
    ensures Members(Unqueue(r, j)) == RemoveAt(Members(r), |r.players| + j)
  {
  }

  /** Leave removes the leaver from the arrival queue, wherever they were in it: the
      promotion of the head spectator keeps everyone else in arrival order. */
  lemma {:induction false} LeaveQueue(r: Room, id: string)
    requires Valid(r) && HasId(Members(r), id)
    ensures Leave(r, id).Some?
    ensures Members(Leave(r, id).value) == RemoveAt(Members(r), FindIndex(Members(r), id))
  {
    HasIdAppend(r.players, r.spectators, id);
    var m := Members(r);
    var k := FindIndex(r.players, id);
    if k != -1 {
      assert m[k] == r.players[k];
      FindIndexUnique(m, id, k);
      VacateQueue(r, k);
    } else {
      var j := FindIndex(r.spectators, id);
      assert m[|r.players| + j] == r.spectators[j];
      FindIndexUnique(m, id, |r.players| + j);
      UnqueueQueue(r, j);
    }
  }

  /** Leave takes exactly the leaver's entry out of the room and nobody else: the
      multiset of members loses that one entry and the id is gone. */
  lemma {:induction false} LeaveLosesOnlyLeaver(r: Room, id: string)
    requires Valid(r) && HasId(Members(r), id)
    ensures Leave(r, id).Some?
    ensures
      var k := FindIndex(Members(r), id);
      var r' := Leave(r, id).value;
      && multiset(Members(r')) == multiset(Members(r)) - multiset{Members(r)[k]}
      && !HasId(Members(r'), id)
      && UniqueIds(Members(r'))
  {
    LeaveQueue(r, id);
    RemoveAtUnique(Members(r), FindIndex(Members(r), id));
  }

  /** Leave keeps the invariant. */
  lemma {:induction false} LeaveKeepsValid(r: Room, id: string)
    requires Valid(r) && HasId(Members(r), id)
    ensures Valid(Leave(r, id).value)
  {
    var k := FindIndex(r.players, id);
    if k != -1 {
      VacateKeepsValid(r, k);
    } else {
      UnqueueKeepsValid(r, FindIndex(r.spectators, id));
    }
  }

  /** Round trip: a newcomer who leaves straight away leaves the room exactly as it was,
      whether they were seated or queued. */
  lemma {:induction false} JoinThenLeave(r: Room, id: string, name: string)
    requires Valid(r) && !HasId(Members(r), id)
    ensures Leave(Join(r, id, name), id) == Some(r)
  {
    var p := Player(id, name, None);
    HasIdAppend(r.players, r.spectators, id);
    if |r.players| < ROOM_CAPACITY {
      FindIndexOfNewcomer(r.players, p);
      assert RemoveAt(r.players + [p], |r.players|) == r.players;
    } else {
      FindIndexOfNewcomer(r.spectators, p);
      assert RemoveAt(r.spectators + [p], |r.spectators|) == r.spectators;
    }
  }

  /** A successful submit changes the submitter's number and nothing else about any
      player: the seats keep their order, ids and names. */
  lemma {:induction false} SubmitRecordsNumber(r: Room, id: string, n: int)
    requires Valid(r) && HasId(r.players, id)
    ensures
      var r' := Submit(r, id, n).value;
      && |r'.players| == |r.players|
      && forall i :: 0 <= i < |r.players| ==>
           r'.players[i] == if r.players[i].id == id then r.players[i].(number := Some(n)) else r.players[i]
  {
    var k := FindIndex(r.players, id);
    var m := Members(r);
    forall i | 0 <= i < |r.players| && r.players[i].id == id ensures i == k {
      assert m[i] == r.players[i] && m[k] == r.players[k];
    }
  }

  /** Submit keeps the invariant. */
  lemma {:induction false} SubmitKeepsValid(r: Room, id: string, n: int)
    requires Valid(r) && HasId(r.players, id)
    ensures Valid(Submit(r, id, n).value)
  {
    var k := FindIndex(r.players, id);
    var r' := Submit(r, id, n).value;
    var m := Members(r);
    var m' := Members(r');
    assert |m'| == |m| && forall i :: 0 <= i < |m| ==> m'[i].id == m[i].id;
  }

  /** Resubmission overwrites: the last number submitted is the one that counts, and the
      result is re-evaluated from it. With m == n this is idempotence. */
  lemma {:induction false} SubmitLastWins(r: Room, id: string, n: int, m: int)
    requires HasId(r.players, id)
    ensures Submit(Submit(r, id, n).value, id, m) == Submit(r, id, m)
  {
    var k := FindIndex(r.players, id);
    var ps1 := r.players[k := r.players[k].(number := Some(n))];
    var ps2 := r.players[k := r.players[k].(number := Some(m))];
    var r1 := Submit(r, id, n).value;
    assert r1.players == ps1;
    var k1 := FindIndex(ps1, id);
    assert ps1[k].id == id;
    assert ps1[k := ps1[k].(number := Some(m))] == ps2;
    assert forall i :: 0 <= i < |ps1| ==> (ps1[i].number.Some? <==> ps2[i].number.Some?);
  }

  /** A run of admissions, in arrival order. */
  function JoinAll(r: Room, newcomers: seq<Player>): Room
    decreases |newcomers|
  {
    if newcomers == [] then r
    else JoinAll(Join(r, newcomers[0].id, newcomers[0].name), newcomers[1..])
  }

  /** Any run of joins keeps the invariant and appends the newcomers to the arrival queue:
      seats fill first, and every later joiner queues as a spectator. */
  lemma {:induction false} JoinAllQueues(r: Room, newcomers: seq<Player>)
    requires Valid(r)
    requires forall i :: 0 <= i < |newcomers| ==> newcomers[i].number.None?
    requires UniqueIds(Members(r) + newcomers)
    ensures Valid(JoinAll(r, newcomers))
    ensures Members(JoinAll(r, newcomers)) == Members(r) + newcomers
    decreases |newcomers|
  {
    if newcomers != [] {
      var p, later := newcomers[0], newcomers[1..];
      assert newcomers == [p] + later;
      assert newcomers[0].id == p.id;
      UniqueSplit(Members(r), newcomers, p.id);
      JoinKeepsValid(r, p.id, p.name);
      var r1 := Join(r, p.id, p.name);
      assert p == Player(p.id, p.name, None);
      assert Members(r1) + later == Members(r) + newcomers;
      assert forall i :: 0 <= i < |later| ==> later[i] == newcomers[i + 1];
      JoinAllQueues(r1, later);
    }
  }

  /** From an empty room, the first `ROOM_CAPACITY` joiners are seated in arrival order and
      everyone after them queues as a spectator, in arrival order. */
  lemma SeatsFillFirst(id: string, newcomers: seq<Player>)
    requires forall i :: 0 <= i < |newcomers| ==> newcomers[i].number.None?
    requires UniqueIds(newcomers)
    ensures JoinAll(EmptyRoom(id), newcomers).players == newcomers[..Min(|newcomers|, ROOM_CAPACITY)]
    ensures JoinAll(EmptyRoom(id), newcomers).spectators == newcomers[Min(|newcomers|, ROOM_CAPACITY)..]
  {
    assert Members(EmptyRoom(id)) + newcomers == newcomers;
    JoinAllQueues(EmptyRoom(id), newcomers);
    SeatsAreQueueHead(JoinAll(EmptyRoom(id), newcomers));
  }
}
