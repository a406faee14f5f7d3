/** The durable store as seen by the server: one snapshot of the whole room
    registry under a fixed key, or nothing when no save has happened yet.
    Serialisation is abstracted away: a saved registry is read back as the
    same value. */
module Persistence {
  import opened Wrappers
  import opened Rooms

  type Snapshot = Option<seq<Room>>

  /** A save overwrites the snapshot with the full registry. */
  function Save(rooms: seq<Room>): (snap: Snapshot)
    ensures snap.Some?
    ensures Load(snap) == rooms
  {
    Some(rooms)
  }

  /** A load yields the stored registry, or an empty one when nothing is
      stored. */
  function Load(snap: Snapshot): (rooms: seq<Room>)
    ensures snap.None? ==> rooms == []
    ensures snap.Some? ==> rooms == snap.value
  {
    snap.GetOr([])
  }

  /** Loading never invents data: saving what was loaded gives back the same
      snapshot whenever one was stored. */
  lemma LoadThenSave(snap: Snapshot)
    requires snap.Some?
    ensures Save(Load(snap)) == snap
  {
  }
}
