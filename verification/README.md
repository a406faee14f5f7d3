# Chat room coordination, modelled in Dafny

A model of the room coordination logic of a small socket-based chat server
(`index.js`). The server keeps an in-memory registry of rooms, newest first.
Each room has an id, a display name, a six-digit join code, its creator, a
creation time, a member list and a message history. Connections send three
requests:

- **createRoom** builds a room with the creator as sole member and one
  system message. It puts the room at the front of the registry, confirms
  it to the caller and saves the whole registry.
- **joinRoom** finds the first room with the given code. A member who is
  already present is only re-subscribed and sent the room. A new member is
  appended with a system message and announced to the other members, and
  the caller is sent the updated room. This handler never saves.
- **sendMessage** finds the first room with the given id and appends the
  message. It broadcasts the message to the whole room and saves the whole
  registry.

Every new connection first reloads the registry from the persisted
snapshot. An empty registry is used when nothing is stored.

The model is functional. Each handler is a pure function from a `State`
(the registry plus the persisted snapshot) and its inputs to a `Transition`.
A transition holds the new state, the emitted events and the broadcast group
the connection subscribed to. Each event is tagged with its audience: `Self`,
`OthersInRoom(id)` or `AllInRoom(id)`. Generated ids, the room code and the
clock readings are parameters. The code must lie in `[100000, 999999]`, the
range of the code generator, and `CreateRoom` requires this.

Modules:

- `Wrappers` (`wrappers.dfy`): `Option`.
- `Rooms` (`rooms.dfy`): `Message` and `Room`, the first-match lookup, and
  the registry invariants. It also defines the growth relation `Extends`.
- `Persistence` (`persistence.dfy`): the snapshot as `Option<seq<Room>>`,
  with `Save` and `Load`.
- `Session` (`session.dfy`): the three handlers and the reload on connect.
- `SessionLemmas` (`session_lemmas.dfy`): properties of single handler calls.
- `Traces` (`traces.dfy`): command sequences across connections, and a
  worked scenario.

### Behaviour of the code worth knowing

- A new-member join is never saved: `joinRoom` (index.js:94-128) does not
  call `setPeristedRoom`, so `JoinRoom` leaves the snapshot alone. The lemma
  `JoinLostOnReconnect` shows the next reload dropping the member when the
  snapshot was current before the join.
- A snapshot that fails to parse leaves the registry as it was, because the
  throw at index.js:174 skips the splice at index.js:176. Parse failure is
  outside the model (see below).

## Model

| member | source | states |
|---|---|---|
| Rooms.FindFirst | index.js:97 | The lookup returns the index of the first element satisfying the test, and None exactly when no element does. |
| Rooms.FindFirstExact | index.js:97 | Whenever some position is the first match, the lookup returns exactly that position. |
| Rooms.FindByCode | index.js:97 | The join lookup returns the first room whose code equals the given code, and None exactly when no room has that code. |
| Rooms.FindById | index.js:133 | The send lookup returns the first room whose id equals the given id, and None exactly when no room has that id. |
| Rooms.ExtendsKeepsHistory | index.js:113 | While one registry extends another, each old room's message history is a prefix of its successor's, so the message count never decreases. |
| Persistence.Save | index.js:162-169 | A save overwrites the snapshot with the full registry, and loading that snapshot gives the registry back unchanged. |
| Persistence.Load | index.js:171-182 | A load yields the stored registry, or the empty registry when nothing is stored. |
| Persistence.LoadThenSave | index.js:173-176 | When a snapshot exists, saving what was loaded reproduces that snapshot. |
| Session.Connect | index.js:35-41 | A new connection replaces the registry with the snapshot and leaves the snapshot alone. A state whose snapshot was current is unchanged. With no snapshot, the registry becomes empty. |
| Session.CreateRoom | index.js:62-92 | The new room is at the head and the tail is exactly the old registry. The new room has the given id, code and name, with `users == [userId]` and `createdBy == userId`. Its history is one message from `system` with text `Room "<name>" was created by <user>`. The only emit is `roomCreated` to the caller. The connection subscribes to the new room. The snapshot equals the new registry, and every old room survives. |
| Session.JoinRoom | index.js:94-128 | The snapshot is never changed and the registry keeps its size and rooms. If no room has the code, the result is exactly "nothing changes, one `Room not found` error to the caller". If a room is found, the last emit is `roomJoined` to the caller with a room that has that code, contains the user and is the subscribed room. |
| Session.SendMessage | index.js:130-160 | No subscription happens and every room survives. If no room has the id, the result is exactly "nothing changes, one `Room not found` error to the sender". If a room has the id, the snapshot equals the new registry and the only emit is `newMessage` to the whole room, with the given text, sender, id and timestamp. |
| SessionLemmas.JoinTargetsFirstMatch | index.js:97-119 | The join acts on the first room with the code. That room is only extended, every other room is unchanged, and the caller's `roomJoined` carries the updated room. |
| SessionLemmas.JoinRejoinUnchanged | index.js:100-119 | A rejoin by a present member leaves the whole state unchanged. The only emit is `roomJoined` with the room as it was. |
| SessionLemmas.JoinNewMember | index.js:104-119 | A new member is appended once, together with exactly one `system` message `<user> joined the room`. The emits are `userJoined` to the other members, then `roomJoined` with the updated room to the caller. The member list stays duplicate-free. |
| SessionLemmas.JoinIdempotent | index.js:94-128 | Joining twice with the same code and user leaves the state of the first join. The second call only confirms the room. |
| SessionLemmas.JoinLostOnReconnect | index.js:94-128 | Since a join does not save, a new member in a state whose snapshot was current is lost at the next reload, which restores the pre-join state. |
| SessionLemmas.SendTargetsFirstMatch | index.js:133-151 | The send appends exactly the new message to the first room with that id. Every other field and every other room is unchanged. |
| SessionLemmas.UniqueIdIsFirst | index.js:133 | When ids are unique, the room a send resolves is the room that carries the id. |
| SessionLemmas.CreatePreservesWellFormed | index.js:65-85 | A create keeps every room well formed, whatever id it is given: valid code, creator as first member, no repeated members, non-empty history. Ids stay unique when the generated id is not already in the registry. |
| SessionLemmas.JoinPreservesWellFormed | index.js:100-113 | A join keeps every room well formed, so the member list stays duplicate-free, and it keeps ids unique. |
| SessionLemmas.SendPreservesWellFormed | index.js:133-147 | A send keeps every room well formed and keeps ids unique. |
| SessionLemmas.SavedHandlersSurviveReconnect | index.js:162-182 | After a create, or after a send to an existing room, reloading the snapshot reproduces the in-memory registry exactly. |
| Traces.Apply | index.js:35-52 | A create, join or send keeps every room, extended. A join never touches the snapshot, and a create leaves the snapshot equal to the registry. |
| Traces.ApplyKeepsRoomsInv | index.js:62-160 | Each handler, and each reload, keeps every room of the registry and of the snapshot well formed, with no assumption on generated ids. |
| Traces.ApplyPreservesInv | index.js:62-160 | Each handler, and each reload, also keeps ids unique in the registry and the snapshot, given a fresh id for a create. |
| Traces.RunKeepsRoomsOk | index.js:62-160 | Across any sequence of connections and requests, every room in the registry and the snapshot keeps a valid code, its creator as first member, a duplicate-free member list and a non-empty history. |
| Traces.RunPreservesInv | index.js:62-160 | Across any sequence in which each generated room id is fresh, room ids also stay unique in the registry and the snapshot. |
| Traces.RunGrows | index.js:62-160 | Across any sequence of requests with no reload in between, no room disappears and no room loses members or messages. |
| Traces.ScenarioCreatedText | index.js:70 | The creation message for room "Trivia" by "alice" reads `Room "Trivia" was created by alice`. |
| Traces.ScenarioJoinedText | index.js:109 | The join message for "bob" reads `bob joined the room`. |
| Traces.ScenarioCreate | index.js:62-92 | Alice creating "Trivia" in an empty server yields exactly one room, one `roomCreated` to her, and a snapshot equal to the registry. |
| Traces.ScenarioJoin | index.js:94-128 | Bob joining by the code yields members `["alice", "bob"]` and two messages. Alice's side is told `userJoined bob` and Bob receives the room. The snapshot is still the pre-join one. |
| Traces.ScenarioSend | index.js:130-160 | Bob's "hello" is broadcast to the whole room, appended to it, and saved. |
| Traces.ScenarioUnknownRoom | index.js:133-138 | A send to the unknown id "xyz" changes nothing and only reports `Room not found` to the sender. |

## Left out

- HTTP, socket.io and CORS setup, the health route, `server.listen` and the connect/disconnect logging (index.js:1-25, 36, 41, 49-60) are transport and logging. Only the reload at connection time is modelled.
- The storage library and JSON serialisation are foreign code. The snapshot is an abstract `Option<seq<Room>>`. A saved registry reads back unchanged, which holds for the string-valued rooms of the model. A snapshot that fails to parse is not modelled.
- Handler arguments (`roomName`, `userID`, `roomCode`, `msg`, `roomId`, `userId` at index.js:63, 95, 131) are modelled as strings, and the code as an integer. A client can send any JSON value, or none. Non-string values are not modelled: neither their coercion in the message templates (index.js:70, 109) nor JSON turning `undefined` into `null` or dropping it. With such values the duplicate-free member list can fail after a save and reload, for example `[null, null]` from two joins without a user id.
- Generated room ids are not checked for collisions (index.js:29, 84). Unique ids are therefore proved only for runs whose generated ids are fresh; the per-room facts are proved for every run.
- `Math.random`, `Date` and `toLocaleTimeString` (index.js:29-33) are randomness and the clock. Ids, codes and timestamps are caller-supplied. The generator's range `[100000, 999999]` is a precondition of `CreateRoom` and is not proved.
- Room codes are integers, so the loose `==` in the join lookup (index.js:97) becomes integer equality. JavaScript's coercion of a string code such as `"123456"` is not modelled.
- The async interleaving of handlers and the fire-and-forget saves are concurrency. Each handler runs atomically in the model, and its save takes effect immediately.
- The try/catch failure paths (`Failed to create room`, `Failed to join room`, `Failed to send message`) and the error logging in the persistence helpers are left out. The modelled operations cannot throw.
- Delivery of events to concrete connections is left out. An event records its audience, not the sockets that receive it.
