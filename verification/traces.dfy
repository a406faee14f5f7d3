/** Sequences of handler calls as the server sees them across connections:
    the registry only grows while no connection reloads it, every room stays
    well formed on every run, and room ids stay unique on every run whose
    generated ids are fresh. */
module Traces {
  import opened Wrappers
  import opened Rooms
  import opened Persistence
  import opened Session
  import opened SessionLemmas

  /** One incoming socket event, with the values the server would have
      generated for it, or a new connection (which reloads the snapshot). */
  datatype Command =
    | CreateCmd(roomName: string, userId: UserId, roomId: Id, msgId: Id, code: int,
                createdAt: string, timestamp: string)
    | JoinCmd(joinCode: int, joinUser: UserId, joinMsgId: Id, joinTimestamp: string)
    | SendCmd(sendRoomId: Id, text: string, sendUser: UserId, sendMsgId: Id, sendTimestamp: string)
    | ConnectCmd

  /** Room codes come from the six-digit generator. */
  predicate CommandOk(c: Command) {
    c.CreateCmd? ==> ValidCode(c.code)
  }

  predicate CommandsOk(cmds: seq<Command>) {
    forall i :: 0 <= i < |cmds| ==> CommandOk(cmds[i])
  }

  function Apply(s: State, c: Command): (t: Transition)
    requires CommandOk(c)
    ensures !c.ConnectCmd? ==> Extends(s.rooms, t.state.rooms)
    ensures c.JoinCmd? ==> t.state.store == s.store
    ensures c.CreateCmd? ==> Synced(t.state)
  {
    match c
    case CreateCmd(name, user, roomId, msgId, code, createdAt, ts) =>
      CreateRoom(s, name, user, roomId, msgId, code, createdAt, ts)
    case JoinCmd(code, user, msgId, ts) => JoinRoom(s, code, user, msgId, ts)
    case SendCmd(roomId, text, user, msgId, ts) => SendMessage(s, roomId, text, user, msgId, ts)
    case ConnectCmd => Transition(Connect(s), [], None)
  }

  /** The state after handling the commands in order. */
  function Run(s: State, cmds: seq<Command>): State
    requires CommandsOk(cmds)
    decreases |cmds|
  {
    if |cmds| == 0 then s else Run(Apply(s, cmds[0]).state, cmds[1..])
  }

  /** Every room id the server generates is new at the moment of creation. */
  predicate FreshIds(s: State, cmds: seq<Command>)
    requires CommandsOk(cmds)
    decreases |cmds|
  {
    |cmds| == 0 ||
    ((cmds[0].CreateCmd? ==> cmds[0].roomId !in IdList(s.rooms))
     && FreshIds(Apply(s, cmds[0]).state, cmds[1..]))
  }

  /** Every room, in the registry and in the snapshot, is well formed. */
  predicate RoomsInv(s: State) {
    RoomsOk(s.rooms) && (s.store.Some? ==> RoomsOk(s.store.value))
  }

  /** The invariant of the whole server state: the registry and the
      snapshot are both well formed, ids included. */
  predicate Inv(s: State) {
    WellFormed(s.rooms) && (s.store.Some? ==> WellFormed(s.store.value))
  }

  lemma ApplyKeepsRoomsInv(s: State, c: Command)
    requires CommandOk(c) && RoomsInv(s)
    ensures RoomsInv(Apply(s, c).state)
  {
    match c
    case CreateCmd(name, user, roomId, msgId, code, createdAt, ts) =>
      CreatePreservesWellFormed(s, name, user, roomId, msgId, code, createdAt, ts);
    case JoinCmd(code, user, msgId, ts) =>
      JoinPreservesWellFormed(s, code, user, msgId, ts);
    case SendCmd(roomId, text, user, msgId, ts) =>
      SendPreservesWellFormed(s, roomId, text, user, msgId, ts);
    case ConnectCmd =>
  }

  lemma ApplyPreservesInv(s: State, c: Command)
    requires CommandOk(c) && Inv(s)
    requires c.CreateCmd? ==> c.roomId !in IdList(s.rooms)
    ensures Inv(Apply(s, c).state)
  {
    match c
    case CreateCmd(name, user, roomId, msgId, code, createdAt, ts) =>
      CreatePreservesWellFormed(s, name, user, roomId, msgId, code, createdAt, ts);
    case JoinCmd(code, user, msgId, ts) =>
      JoinPreservesWellFormed(s, code, user, msgId, ts);
    case SendCmd(roomId, text, user, msgId, ts) =>
      SendPreservesWellFormed(s, roomId, text, user, msgId, ts);
    case ConnectCmd =>
  }

  lemma CommandsOkTail(cmds: seq<Command>)
    requires |cmds| > 0 && CommandsOk(cmds)
    ensures CommandsOk(cmds[1..])
  {
    forall i | 0 <= i < |cmds[1..]| ensures CommandOk(cmds[1..][i]) {
      assert cmds[1..][i] == cmds[i + 1];
    }
  }

  /** Valid codes, the creator as first member, duplicate-free members and
      non-empty histories hold after every run, whatever ids are generated. */
  lemma {:induction false} RunKeepsRoomsOk(s: State, cmds: seq<Command>)
    requires CommandsOk(cmds) && RoomsInv(s)
    ensures RoomsInv(Run(s, cmds))
    decreases |cmds|
  {
    if |cmds| > 0 {
      var s1 := Apply(s, cmds[0]).state;
      ApplyKeepsRoomsInv(s, cmds[0]);
      CommandsOkTail(cmds);
      RunKeepsRoomsOk(s1, cmds[1..]);
      assert Run(s, cmds) == Run(s1, cmds[1..]);
    }
  }

  /** Room ids stay unique, on top of the per-room facts, after any run
      whose generated ids are fresh. */
  lemma {:induction false} RunPreservesInv(s: State, cmds: seq<Command>)
    requires CommandsOk(cmds) && Inv(s) && FreshIds(s, cmds)
    ensures Inv(Run(s, cmds))
    decreases |cmds|
  {
    if |cmds| > 0 {
      ApplyPreservesInv(s, cmds[0]);
      CommandsOkTail(cmds);
      RunPreservesInv(Apply(s, cmds[0]).state, cmds[1..]);
    }
  }

  predicate NoReload(cmds: seq<Command>) {
    forall i :: 0 <= i < |cmds| ==> !cmds[i].ConnectCmd?
  }

  /** Between reloads no room disappears or loses members or messages:
      every room is still there, extended, behind the newer rooms. */
  lemma {:induction false} RunGrows(s: State, cmds: seq<Command>)
    requires CommandsOk(cmds) && NoReload(cmds)
    ensures Extends(s.rooms, Run(s, cmds).rooms)
    decreases |cmds|
  {
    if |cmds| == 0 {
      assert Extends(s.rooms, s.rooms) by {
        forall i | 0 <= i < |s.rooms| ensures RoomExtends(s.rooms[i], s.rooms[i]) { }
      }
    } else {
      var s1 := Apply(s, cmds[0]).state;
      assert CommandsOk(cmds[1..]) && NoReload(cmds[1..]) by {
        forall i | 0 <= i < |cmds[1..]| ensures CommandOk(cmds[1..][i]) && !cmds[1..][i].ConnectCmd? {
          assert cmds[1..][i] == cmds[i + 1];
        }
      }
      RunGrows(s1, cmds[1..]);
      ExtendsTransitive(s.rooms, s1.rooms, Run(s1, cmds[1..]).rooms);
    }
  }

  // ---------------------------------------------------------------------
  // Alice creates "Trivia", Bob joins by its code and says hello, and a
  // send to an unknown room id only reports an error to the sender.

  const TriviaCreated: Room := Room("r1", "Trivia",
    [Message("m1", CreatedText("Trivia", "alice"), SystemSender, "10:00")],
    123456, "alice", "10:00", ["alice"])

  const TriviaJoined: Room := TriviaCreated.(users := ["alice", "bob"],
    messages := TriviaCreated.messages + [Message("m2", JoinedText("bob"), SystemSender, "10:01")])

  const Hello: Message := Message("m3", "hello", "bob", "10:02")

  const TriviaHello: Room := TriviaJoined.(messages := TriviaJoined.messages + [Hello])

  /** The two system messages of the scenario, spelled out. */
  lemma ScenarioCreatedText()
    ensures CreatedText("Trivia", "alice") == "Room \"Trivia\" was created by alice"
  {
  }

  lemma ScenarioJoinedText()
    ensures JoinedText("bob") == "bob joined the room"
  {
  }

  lemma ScenarioCreate()
    ensures CreateRoom(State([], None), "Trivia", "alice", "r1", "m1", 123456, "10:00", "10:00")
         == Transition(State([TriviaCreated], Some([TriviaCreated])),
                       [Event(Self, RoomCreated(TriviaCreated))], Some("r1"))
  {
    var t := CreateRoom(State([], None), "Trivia", "alice", "r1", "m1", 123456, "10:00", "10:00");
    assert t.state.rooms[0] == TriviaCreated;
    assert t.state.rooms == [TriviaCreated];
  }

  lemma ScenarioJoin()
    ensures JoinRoom(State([TriviaCreated], Some([TriviaCreated])), 123456, "bob", "m2", "10:01")
         == Transition(State([TriviaJoined], Some([TriviaCreated])),
                       [Event(OthersInRoom("r1"), UserJoined("bob")), Event(Self, RoomJoined(TriviaJoined))],
                       Some("r1"))
  {
    var s := State([TriviaCreated], Some([TriviaCreated]));
    assert IsFirst(s.rooms, HasCode(123456), 0);
    assert "bob" !in TriviaCreated.users;
    JoinNewMember(s, 123456, "bob", "m2", "10:01", 0);
    JoinTargetsFirstMatch(s, 123456, "bob", "m2", "10:01", 0);
    var t := JoinRoom(s, 123456, "bob", "m2", "10:01");
    assert TriviaCreated.users + ["bob"] == ["alice", "bob"];
    assert t.state.rooms[0] == TriviaJoined;
    assert t.state.rooms == [TriviaJoined];
  }

  lemma ScenarioSend()
    ensures SendMessage(State([TriviaJoined], Some([TriviaCreated])), "r1", "hello", "bob", "m3", "10:02")
         == Transition(State([TriviaHello], Some([TriviaHello])),
                       [Event(AllInRoom("r1"), NewMessage(Hello))], None)
  {
    var s := State([TriviaJoined], Some([TriviaCreated]));
    assert IsFirst(s.rooms, HasId("r1"), 0);
    SendTargetsFirstMatch(s, "r1", "hello", "bob", "m3", "10:02", 0);
    var t := SendMessage(s, "r1", "hello", "bob", "m3", "10:02");
    assert t.state.rooms == [TriviaHello];
  }

  lemma ScenarioUnknownRoom()
    ensures SendMessage(State([TriviaHello], Some([TriviaHello])), "xyz", "hi", "bob", "m4", "10:03")
         == Transition(State([TriviaHello], Some([TriviaHello])), [Event(Self, Error("Room not found"))], None)
  {
    assert TriviaHello.id != "xyz";
  }
}
