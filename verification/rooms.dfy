/** The entities of the chat server (rooms and their messages), the
    first-match lookup the handlers use, and the invariants a well-formed
    room registry keeps. */
module Rooms {
  import opened Wrappers

  /** Opaque generated identifiers (rooms, messages) and user identifiers. */
  type Id = string
  type UserId = string

  /** The sender recorded on messages the server writes itself. */
  const SystemSender: string := "system"

  /** Bounds of the six-digit room codes the code generator draws from. */
  const MinCode: int := 100000
  const MaxCode: int := 999999

  datatype Message = Message(id: Id, text: string, sender: string, timestamp: string)

  datatype Room = Room(
    id: Id,
    roomName: string,
    messages: seq<Message>,
    roomCode: int,
    createdBy: UserId,
    createdAt: string,
    users: seq<UserId>)

  predicate ValidCode(code: int) {
    MinCode <= code <= MaxCode
  }

  /** Text of the system message that announces a new room. */
  function CreatedText(roomName: string, userId: UserId): string {
    "Room \"" + roomName + "\" was created by " + userId
  }

  /** Text of the system message that announces a new member. */
  function JoinedText(userId: UserId): string {
    userId + " joined the room"
  }

  // ---------------------------------------------------------------------
  // First-match lookup

  /** `i` is the position of the first element of `s` satisfying `p`. */
  predicate IsFirst<T>(s: seq<T>, p: T -> bool, i: int) {
    0 <= i < |s| && p(s[i]) && forall j :: 0 <= j < i ==> !p(s[j])
  }

  /** Linear search from the front: the index of the first element that
      satisfies `p`, or None when no element does. */
  function FindFirst<T>(s: seq<T>, p: T -> bool): (r: Option<nat>)
    ensures r.Some? ==> IsFirst(s, p, r.value)
    ensures r.None? <==> forall j :: 0 <= j < |s| ==> !p(s[j])
  {
    if |s| == 0 then None
    else if p(s[0]) then Some(0)
    else match FindFirst(s[1..], p)
      case None => None
      case Some(i) => Some(i + 1)
  }

  /** At most one position is the first match. */
  lemma IsFirstUnique<T>(s: seq<T>, p: T -> bool, i: int, k: int)
    requires IsFirst(s, p, i) && IsFirst(s, p, k)
    ensures i == k
  {
  }

  /** The search finds exactly the first match. */
  lemma FindFirstExact<T>(s: seq<T>, p: T -> bool, i: int)
    requires IsFirst(s, p, i)
    ensures FindFirst(s, p) == Some(i)
  {
    var r := FindFirst(s, p);
    assert r.Some? by { assert p(s[i]); }
    IsFirstUnique(s, p, i, r.value);
  }

  /** The join lookup matches on the room code. */
  function HasCode(code: int): Room -> bool {
    (r: Room) => r.roomCode == code
  }

  /** The send lookup matches on the room id. */
  function HasId(id: Id): Room -> bool {
    (r: Room) => r.id == id
  }

  function FindByCode(rooms: seq<Room>, code: int): (r: Option<nat>)
    ensures r.Some? ==> r.value < |rooms| && rooms[r.value].roomCode == code
    ensures r.Some? ==> forall j :: 0 <= j < r.value ==> rooms[j].roomCode != code
    ensures r.None? <==> forall j :: 0 <= j < |rooms| ==> rooms[j].roomCode != code
  {
    FindFirst(rooms, HasCode(code))
  }

  function FindById(rooms: seq<Room>, id: Id): (r: Option<nat>)
    ensures r.Some? ==> r.value < |rooms| && rooms[r.value].id == id
    ensures r.Some? ==> forall j :: 0 <= j < r.value ==> rooms[j].id != id
    ensures r.None? <==> forall j :: 0 <= j < |rooms| ==> rooms[j].id != id
  {
    FindFirst(rooms, HasId(id))
  }

  // ---------------------------------------------------------------------
  // Registry invariants

  /** The room ids in registry order. */
  function IdList(rooms: seq<Room>): (ids: seq<Id>)
    ensures |ids| == |rooms|
    ensures forall i :: 0 <= i < |rooms| ==> ids[i] == rooms[i].id
  {
    seq(|rooms|, i requires 0 <= i < |rooms| => rooms[i].id)
  }

  predicate NoDuplicates<T(==)>(s: seq<T>) {
    forall i, j :: 0 <= i < j < |s| ==> s[i] != s[j]
  }

  /** No two rooms share an id. */
  predicate UniqueIds(rooms: seq<Room>) {
    NoDuplicates(IdList(rooms))
  }

  /** What every room keeps from its creation on: a valid code, its creator
      as first member, a member list without repeats and at least the
      creation message. */
  predicate RoomWellFormed(room: Room) {
    && ValidCode(room.roomCode)
    && |room.users| >= 1
    && room.users[0] == room.createdBy
    && NoDuplicates(room.users)
    && |room.messages| >= 1
  }

  /** Every room of the registry is well formed on its own. */
  predicate RoomsOk(rooms: seq<Room>) {
    forall i :: 0 <= i < |rooms| ==> RoomWellFormed(rooms[i])
  }

  /** The per-room facts, and unique ids across the registry. */
  predicate WellFormed(rooms: seq<Room>) {
    UniqueIds(rooms) && RoomsOk(rooms)
  }

  // ---------------------------------------------------------------------
  // Growth: rooms are never removed and their history only lengthens

  /** `b` is `a` after appends to its member list and history; its identity
      and creation data are untouched. */
  predicate RoomExtends(a: Room, b: Room) {
    && a.id == b.id
    && a.roomName == b.roomName
    && a.roomCode == b.roomCode
    && a.createdBy == b.createdBy
    && a.createdAt == b.createdAt
    && a.users <= b.users
    && a.messages <= b.messages
  }

  /** Every room of `older` survives in `newer`, extended, in the same
      order, with any newer rooms in front. */
  predicate Extends(older: seq<Room>, newer: seq<Room>) {
    && |older| <= |newer|
    && forall i :: 0 <= i < |older| ==> RoomExtends(older[i], newer[|newer| - |older| + i])
  }

  lemma {:induction false} ExtendsTransitive(a: seq<Room>, b: seq<Room>, c: seq<Room>)
    requires Extends(a, b) && Extends(b, c)
    ensures Extends(a, c)
  {
    forall i | 0 <= i < |a|
      ensures RoomExtends(a[i], c[|c| - |a| + i])
    {
      var k := |b| - |a| + i;
      assert RoomExtends(a[i], b[k]);
      assert RoomExtends(b[k], c[|c| - |b| + k]);
      assert |c| - |b| + k == |c| - |a| + i;
    }
  }

  /** A message history never shrinks along an extension. */
  lemma ExtendsKeepsHistory(older: seq<Room>, newer: seq<Room>, i: int)
    requires Extends(older, newer) && 0 <= i < |older|
    ensures |newer| - |older| + i < |newer|
    ensures |older[i].messages| <= |newer[|newer| - |older| + i].messages|
    ensures older[i].messages == newer[|newer| - |older| + i].messages[..|older[i].messages|]
  {
    assert RoomExtends(older[i], newer[|newer| - |older| + i]);
  }
}
