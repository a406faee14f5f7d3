/** Properties of the three handlers, one call at a time: which room a
    lookup picks, what a rejoin, a new join and a send change, and that the
    registry invariants survive each of them. */
module SessionLemmas {
  import opened Wrappers
  import opened Rooms
  import opened Persistence
  import opened Session

  // ---------------------------------------------------------------------
  // Join

  /** The join acts on the first room carrying the code: that room is
      extended, every other room is left as it was, and the caller gets
      the updated room last. */
  lemma JoinTargetsFirstMatch(s: State, code: int, userId: UserId, msgId: Id, timestamp: string, i: int)
    requires IsFirst(s.rooms, HasCode(code), i)
    ensures var t := JoinRoom(s, code, userId, msgId, timestamp);
      && t.joined == Some(s.rooms[i].id)
      && RoomExtends(s.rooms[i], t.state.rooms[i])
      && (forall j :: 0 <= j < |s.rooms| && j != i ==> t.state.rooms[j] == s.rooms[j])
      && t.events[|t.events| - 1] == Event(Self, RoomJoined(t.state.rooms[i]))
  {
    FindFirstExact(s.rooms, HasCode(code), i);
  }

  /** A rejoin by a present member changes nothing and only confirms the
      room to the caller. */
  lemma JoinRejoinUnchanged(s: State, code: int, userId: UserId, msgId: Id, timestamp: string, i: int)
    requires IsFirst(s.rooms, HasCode(code), i)
    requires userId in s.rooms[i].users
    ensures var t := JoinRoom(s, code, userId, msgId, timestamp);
      && t.state == s
      && t.events == [Event(Self, RoomJoined(s.rooms[i]))]
      && t.joined == Some(s.rooms[i].id)
  {
    FindFirstExact(s.rooms, HasCode(code), i);
  }

  /** A new member is appended once, with one system message, announced to
      the other members and then confirmed to the caller; the member list
      stays free of repeats. */
  lemma JoinNewMember(s: State, code: int, userId: UserId, msgId: Id, timestamp: string, i: int)
    requires IsFirst(s.rooms, HasCode(code), i)
    requires userId !in s.rooms[i].users
    ensures var t := JoinRoom(s, code, userId, msgId, timestamp);
      && t.state.rooms[i].users == s.rooms[i].users + [userId]
      && t.state.rooms[i].messages
         == s.rooms[i].messages + [Message(msgId, JoinedText(userId), SystemSender, timestamp)]
      && t.events == [Event(OthersInRoom(s.rooms[i].id), UserJoined(userId)),
                      Event(Self, RoomJoined(t.state.rooms[i]))]
      && (NoDuplicates(s.rooms[i].users) ==> NoDuplicates(t.state.rooms[i].users))
  {
    FindFirstExact(s.rooms, HasCode(code), i);
  }

  /** Joining twice with the same code and user leaves the state of the
      first join: the second call is a rejoin. */
  lemma JoinIdempotent(s: State, code: int, userId: UserId, msgId: Id, timestamp: string,
                       msgId2: Id, timestamp2: string, i: int)
    requires IsFirst(s.rooms, HasCode(code), i)
    ensures var t := JoinRoom(s, code, userId, msgId, timestamp);
      var t2 := JoinRoom(t.state, code, userId, msgId2, timestamp2);
      && t2.state == t.state
      && t2.events == [Event(Self, RoomJoined(t.state.rooms[i]))]
  {
    var t := JoinRoom(s, code, userId, msgId, timestamp);
    JoinTargetsFirstMatch(s, code, userId, msgId, timestamp, i);
    assert IsFirst(t.state.rooms, HasCode(code), i) by {
      forall j | 0 <= j < i
        ensures !HasCode(code)(t.state.rooms[j])
      {
        assert t.state.rooms[j] == s.rooms[j];
        assert !HasCode(code)(s.rooms[j]);
      }
    }
    assert userId in t.state.rooms[i].users by {
      FindFirstExact(s.rooms, HasCode(code), i);
    }
    JoinRejoinUnchanged(t.state, code, userId, msgId2, timestamp2, i);
  }

  /** A join is not saved: when the snapshot was current, a new connection
      reloads it and the new member is gone again. */
  lemma JoinLostOnReconnect(s: State, code: int, userId: UserId, msgId: Id, timestamp: string, i: int)
    requires Synced(s)
    requires IsFirst(s.rooms, HasCode(code), i)
    requires userId !in s.rooms[i].users
    ensures var t := JoinRoom(s, code, userId, msgId, timestamp);
      && !Synced(t.state)
      && Connect(t.state) == s
      && userId !in Connect(t.state).rooms[i].users
  {
    var t := JoinRoom(s, code, userId, msgId, timestamp);
    JoinNewMember(s, code, userId, msgId, timestamp, i);
    assert t.state.rooms[i] != s.rooms[i];
  }

  // ---------------------------------------------------------------------
  // Send

  /** A send appends exactly the new message to the first room with that id
      and leaves every other room, and every other field, as it was. */
  lemma SendTargetsFirstMatch(s: State, roomId: Id, text: string, userId: UserId, msgId: Id,
                              timestamp: string, i: int)
    requires IsFirst(s.rooms, HasId(roomId), i)
    ensures var t := SendMessage(s, roomId, text, userId, msgId, timestamp);
      && t.state.rooms[i] == s.rooms[i].(messages := s.rooms[i].messages
                                           + [Message(msgId, text, userId, timestamp)])
      && (forall j :: 0 <= j < |s.rooms| && j != i ==> t.state.rooms[j] == s.rooms[j])
  {
    FindFirstExact(s.rooms, HasId(roomId), i);
  }

  /** With unique ids, the room a send resolves is the one carrying the id. */
  lemma UniqueIdIsFirst(rooms: seq<Room>, roomId: Id, i: int)
    requires UniqueIds(rooms)
    requires 0 <= i < |rooms| && rooms[i].id == roomId
    ensures IsFirst(rooms, HasId(roomId), i)
  {
  }

  // ---------------------------------------------------------------------
  // Invariants

  /** A create keeps every room well formed, whatever id it is given; ids
      stay unique when the generated id is not already in use. */
  lemma CreatePreservesWellFormed(s: State, roomName: string, userId: UserId, roomId: Id, msgId: Id,
                                  code: int, createdAt: string, timestamp: string)
    requires ValidCode(code)
    ensures var rooms := CreateRoom(s, roomName, userId, roomId, msgId, code, createdAt, timestamp).state.rooms;
      && (RoomsOk(s.rooms) ==> RoomsOk(rooms))
      && (UniqueIds(s.rooms) && roomId !in IdList(s.rooms) ==> UniqueIds(rooms))
  {
    var rooms := CreateRoom(s, roomName, userId, roomId, msgId, code, createdAt, timestamp).state.rooms;
    assert rooms == [rooms[0]] + s.rooms;
    PrependKeepsWellFormed(rooms[0], s.rooms);
  }

  /** Putting a well-formed room in front keeps every room well formed, and
      keeps ids unique when its id is new. */
  lemma PrependKeepsWellFormed(room: Room, rooms: seq<Room>)
    requires RoomWellFormed(room)
    ensures RoomsOk(rooms) ==> RoomsOk([room] + rooms)
    ensures UniqueIds(rooms) && room.id !in IdList(rooms) ==> UniqueIds([room] + rooms)
  {
    var rooms' := [room] + rooms;
    assert forall j :: 1 <= j < |rooms'| ==> rooms'[j] == rooms[j - 1];
    assert IdList(rooms') == [room.id] + IdList(rooms);
  }

  /** Changing one room without touching its id keeps ids unique, and
      keeps every room well formed when the changed room is. */
  lemma UpdateOneKeepsWellFormed(rooms: seq<Room>, rooms': seq<Room>, i: int)
    requires |rooms'| == |rooms| && 0 <= i < |rooms|
    requires rooms'[i].id == rooms[i].id
    requires forall j :: 0 <= j < |rooms| && j != i ==> rooms'[j] == rooms[j]
    ensures UniqueIds(rooms) ==> UniqueIds(rooms')
    ensures RoomsOk(rooms) && RoomWellFormed(rooms'[i]) ==> RoomsOk(rooms')
  {
    assert IdList(rooms') == IdList(rooms);
    if RoomsOk(rooms) && RoomWellFormed(rooms'[i]) {
      forall j | 0 <= j < |rooms'|
        ensures RoomWellFormed(rooms'[j])
      {
        if j != i {
          assert rooms'[j] == rooms[j];
        }
      }
    }
  }

  /** A join only appends to one room; ids are untouched, and the member
      list stays free of repeats. */
  lemma JoinPreservesWellFormed(s: State, code: int, userId: UserId, msgId: Id, timestamp: string)
    ensures var rooms := JoinRoom(s, code, userId, msgId, timestamp).state.rooms;
      && (RoomsOk(s.rooms) ==> RoomsOk(rooms))
      && (UniqueIds(s.rooms) ==> UniqueIds(rooms))
  {
    var t := JoinRoom(s, code, userId, msgId, timestamp);
    match FindByCode(s.rooms, code)
    case None =>
    case Some(i) =>
      assert IsFirst(s.rooms, HasCode(code), i);
      if userId in s.rooms[i].users {
        JoinRejoinUnchanged(s, code, userId, msgId, timestamp, i);
      } else {
        JoinTargetsFirstMatch(s, code, userId, msgId, timestamp, i);
        JoinNewMember(s, code, userId, msgId, timestamp, i);
        if RoomsOk(s.rooms) {
          assert RoomWellFormed(s.rooms[i]);
          assert t.state.rooms[i].users[0] == s.rooms[i].users[0];
        }
        UpdateOneKeepsWellFormed(s.rooms, t.state.rooms, i);
      }
  }

  /** A send only appends to one room's history. */
  lemma SendPreservesWellFormed(s: State, roomId: Id, text: string, userId: UserId, msgId: Id,
                                timestamp: string)
    ensures var rooms := SendMessage(s, roomId, text, userId, msgId, timestamp).state.rooms;
      && (RoomsOk(s.rooms) ==> RoomsOk(rooms))
      && (UniqueIds(s.rooms) ==> UniqueIds(rooms))
  {
    match FindById(s.rooms, roomId)
    case None =>
    case Some(i) =>
      assert IsFirst(s.rooms, HasId(roomId), i);
      SendTargetsFirstMatch(s, roomId, text, userId, msgId, timestamp, i);
      UpdateOneKeepsWellFormed(s.rooms, SendMessage(s, roomId, text, userId, msgId, timestamp).state.rooms, i);
  }

  /** Create and send save the whole registry: a new connection reloads
      exactly what is in memory. */
  lemma SavedHandlersSurviveReconnect(s: State, roomName: string, userId: UserId, roomId: Id,
                                      msgId: Id, code: int, createdAt: string, timestamp: string,
                                      text: string)
    requires ValidCode(code)
    ensures var t := CreateRoom(s, roomName, userId, roomId, msgId, code, createdAt, timestamp);
      Connect(t.state) == t.state
    ensures (exists j :: 0 <= j < |s.rooms| && s.rooms[j].id == roomId) ==>
      var t := SendMessage(s, roomId, text, userId, msgId, timestamp);
      Connect(t.state) == t.state
  {
  }
}
