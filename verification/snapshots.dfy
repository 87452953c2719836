/** The serialized views of a room sent to subscribers: `serializePlayers` and `serialize`. */
module Snapshots {
  import opened RaceModel

  /** `Array.from(room.players.values())`: every stored player exactly once, in insertion order. */
  function SerializePlayers(t: PlayerTable): (r: seq<Player>)
    requires ValidTable(t)
    ensures |r| == |t.byId| == |t.order|
    ensures forall i | 0 <= i < |r| :: r[i].id == t.order[i]
    ensures forall k | k in t.byId :: t.byId[k] in r
    ensures forall p | p in r :: p.id in t.byId && t.byId[p.id] == p
    ensures forall i, j | 0 <= i < j < |r| :: r[i].id != r[j].id
  {
    TableSize(t);
    seq(|t.order|, i requires 0 <= i < |t.order| => t.byId[t.order[i]])
  }

  /** A valid table has one key in `order` per entry. */
  lemma TableSize(t: PlayerTable)
    requires ValidTable(t)
    ensures |t.order| == |t.byId|
  {
    DistinctCard(t.order);
    assert t.byId.Keys == set x | x in t.order;
  }

  /** `serialize(room)`: the `state` payload. An absent `startedAt` is reported as null. */
  function Serialize(room: Room): (r: Payload)
    requires ValidTable(room.players)
    ensures r.StateData? && r.roomId == room.id && r.phrase == room.phrase && r.title == room.title
    ensures r.updatedAt == room.updatedAt
    ensures r.startedAt == room.startedAt
    ensures r.players == SerializePlayers(room.players)
  {
    StateData(room.id, room.phrase, SerializePlayers(room.players), room.startedAt, room.title, room.updatedAt)
  }
}
