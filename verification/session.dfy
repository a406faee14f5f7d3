/** The per-connection handlers of the chat server as pure transitions over
    the server state (in-memory registry plus persisted snapshot). Socket
    emits become `Event`s tagged with their audience; subscribing the
    connection to a room's broadcast group becomes the `joined` field.
    Generated ids, room codes and clock readings are parameters. */
module Session {
  import opened Wrappers
  import opened Rooms
  import opened Persistence

  datatype State = State(rooms: seq<Room>, store: Snapshot)

  /** Who receives an emit: the originating connection, the other
      connections in a room's group, or every connection in that group. */
  datatype Audience = Self | OthersInRoom(roomId: Id) | AllInRoom(roomId: Id)

  datatype Payload =
    | RoomCreated(room: Room)
    | RoomJoined(room: Room)
    | UserJoined(userId: UserId)
    | NewMessage(message: Message)
    | Error(reason: string)

  datatype Event = Event(to: Audience, payload: Payload)

  /** The result of one handler: the new state, the emits in order, and the
      broadcast group the connection subscribed to, if any. */
  datatype Transition = Transition(state: State, events: seq<Event>, joined: Option<Id>)

  const RoomNotFound: string := "Room not found"

  /** The persisted snapshot is exactly the in-memory registry. */
  predicate Synced(s: State) {
    s.store == Some(s.rooms)
  }

  /** A failed lookup: nothing changes and only the caller hears an error. */
  function NotFound(s: State): Transition {
    Transition(s, [Event(Self, Error(RoomNotFound))], None)
  }

  /** A new connection first reloads the registry from the snapshot. */
  function Connect(s: State): (r: State)
    ensures r.store == s.store
    ensures s.store.None? ==> r.rooms == []
    ensures Synced(s) ==> r == s
    ensures s.store.Some? ==> Synced(r)
  {
    s.(rooms := Load(s.store))
  }

  /** Builds a room with its creator as sole member and one system message,
      puts it at the front of the registry and saves the whole registry. */
  function CreateRoom(s: State, roomName: string, userId: UserId, roomId: Id, msgId: Id,
                      code: int, createdAt: string, timestamp: string): (t: Transition)
    requires ValidCode(code)
    ensures |t.state.rooms| == |s.rooms| + 1 && t.state.rooms[1..] == s.rooms
    ensures t.state.rooms[0].id == roomId && t.state.rooms[0].roomName == roomName
    ensures t.state.rooms[0].roomCode == code && t.state.rooms[0].createdAt == createdAt
    ensures t.state.rooms[0].users == [userId] && t.state.rooms[0].createdBy == userId
    ensures t.state.rooms[0].messages
         == [Message(msgId, CreatedText(roomName, userId), SystemSender, timestamp)]
    ensures RoomWellFormed(t.state.rooms[0])
    ensures t.events == [Event(Self, RoomCreated(t.state.rooms[0]))]
    ensures t.joined == Some(roomId)
    ensures Synced(t.state)
    ensures Extends(s.rooms, t.state.rooms)
  {
    var room := Room(
      id := roomId,
      roomName := roomName,
      messages := [Message(msgId, CreatedText(roomName, userId), SystemSender, timestamp)],
      roomCode := code,
      createdBy := userId,
      createdAt := createdAt,
      users := [userId]);
    var rooms := [room] + s.rooms;
    Transition(State(rooms, Save(rooms)), [Event(Self, RoomCreated(room))], Some(roomId))
  }

  /** Resolves the first room with the given code. A member already present
      is only re-subscribed and sent the room; a new member is appended
      with a join message and announced to the others. Never saves. */
  function JoinRoom(s: State, code: int, userId: UserId, msgId: Id, timestamp: string): (t: Transition)
    ensures t.state.store == s.store
    ensures Extends(s.rooms, t.state.rooms) && |t.state.rooms| == |s.rooms|
    ensures (forall j :: 0 <= j < |s.rooms| ==> s.rooms[j].roomCode != code) <==> t == NotFound(s)
    ensures (exists j :: 0 <= j < |s.rooms| && s.rooms[j].roomCode == code) ==>
      && t.joined.Some?
      && |t.events| >= 1
      && t.events[|t.events| - 1].to == Self
      && t.events[|t.events| - 1].payload.RoomJoined?
      && t.events[|t.events| - 1].payload.room.id == t.joined.value
      && t.events[|t.events| - 1].payload.room.roomCode == code
      && userId in t.events[|t.events| - 1].payload.room.users
  {
    match FindByCode(s.rooms, code)
    case None => NotFound(s)
    case Some(i) =>
      var room := s.rooms[i];
      if userId in room.users then
        Transition(s, [Event(Self, RoomJoined(room))], Some(room.id))
      else
        var joinMessage := Message(msgId, JoinedText(userId), SystemSender, timestamp);
        var room' := room.(users := room.users + [userId], messages := room.messages + [joinMessage]);
        Transition(
          s.(rooms := s.rooms[i := room']),
          [Event(OthersInRoom(room.id), UserJoined(userId)), Event(Self, RoomJoined(room'))],
          Some(room.id))
  }

  /** Resolves the first room with the given id, appends the message to it,
      broadcasts it to the whole room and saves the whole registry. */
  function SendMessage(s: State, roomId: Id, text: string, userId: UserId, msgId: Id,
                       timestamp: string): (t: Transition)
    ensures Extends(s.rooms, t.state.rooms) && |t.state.rooms| == |s.rooms|
    ensures t.joined == None
    ensures (forall j :: 0 <= j < |s.rooms| ==> s.rooms[j].id != roomId) <==> t == NotFound(s)
    ensures (exists j :: 0 <= j < |s.rooms| && s.rooms[j].id == roomId) ==>
      && Synced(t.state)
      && t.events == [Event(AllInRoom(roomId), NewMessage(Message(msgId, text, userId, timestamp)))]
  {
    match FindById(s.rooms, roomId)
    case None => NotFound(s)
    case Some(i) =>
      var message := Message(msgId, text, userId, timestamp);
      var room := s.rooms[i];
      var rooms := s.rooms[i := room.(messages := room.messages + [message])];
      Transition(State(rooms, Save(rooms)), [Event(AllInRoom(room.id), NewMessage(message))], None)
  }
}
