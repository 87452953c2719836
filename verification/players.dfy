/** The player state manager of the race store: `upsertPlayer`. */
module Players {
  import opened Optional
  import opened JsText
  import opened RaceModel
  import opened Snapshots
  import opened Subscriptions

  /** `Partial<Player> & { id: string }`: each optional field is present or absent. */
  datatype PartialPlayer = PartialPlayer(
    id: JsString,
    name: Option<JsString>,
    progress: Option<Number>,
    wpm: Option<Number>,
    finished: Option<bool>)

  /** The name a new player gets when none is given. */
  const DefaultName: JsString := Utf16("player")

  /** The record a new id starts from before the partial update is applied. */
  function Fresh(p: PartialPlayer): (r: Player)
    ensures r.id == p.id && r.progress == 0.0 && r.wpm == 0.0 && !r.finished
    ensures p.name.Some? ==> r.name == p.name.value
    ensures p.name.None? ==> r.name == DefaultName
  {
    Player(p.id, p.name.GetOr(DefaultName), 0.0, 0.0, false)
  }

  /** `{ ...cur, ...partial }`: present fields of `p` win, absent ones keep `cur`'s. */
  function Merge(cur: Player, p: PartialPlayer): (r: Player)
    ensures r.id == p.id
    ensures r.name == (if p.name.Some? then p.name.value else cur.name)
    ensures r.progress == (if p.progress.Some? then p.progress.value else cur.progress)
    ensures r.wpm == (if p.wpm.Some? then p.wpm.value else cur.wpm)
    ensures r.finished == (if p.finished.Some? then p.finished.value else cur.finished)
  {
    Player(p.id, p.name.GetOr(cur.name), p.progress.GetOr(cur.progress), p.wpm.GetOr(cur.wpm),
           p.finished.GetOr(cur.finished))
  }

  /** Spreading the same partial record a second time changes nothing. */
  lemma MergeTwice(cur: Player, p: PartialPlayer)
    ensures Merge(Merge(cur, p), p) == Merge(cur, p)
  {
  }

  /** `players.set(next.id, next)` on an insertion-ordered map. */
  function Put(t: PlayerTable, next: Player): (r: PlayerTable)
    requires ValidTable(t)
    ensures ValidTable(r)
    ensures r.byId == t.byId[next.id := next]
    ensures next.id in t.byId ==> r.order == t.order
    ensures next.id !in t.byId ==> r.order == t.order + [next.id]
  {
    PlayerTable(t.byId[next.id := next], if next.id in t.byId then t.order else t.order + [next.id])
  }

  /** The player table after `upsertPlayer`: the partial record merged over
      the stored one, or over the defaults for a new id; every other player
      unchanged; a new id appended to the insertion order. */
  function Upserted(t: PlayerTable, p: PartialPlayer): (r: PlayerTable)
    requires ValidTable(t)
    ensures ValidTable(r)
    ensures p.id in r.byId && r.byId[p.id].id == p.id
    ensures var prev := t.byId; var q := r.byId[p.id];
      && (p.name.Some? ==> q.name == p.name.value)
      && (p.name.None? && p.id in prev ==> q.name == prev[p.id].name)
      && (p.name.None? && p.id !in prev ==> q.name == DefaultName)
      && (p.progress.Some? ==> q.progress == p.progress.value)
      && (p.progress.None? && p.id in prev ==> q.progress == prev[p.id].progress)
      && (p.progress.None? && p.id !in prev ==> q.progress == 0.0)
      && (p.wpm.Some? ==> q.wpm == p.wpm.value)
      && (p.wpm.None? && p.id in prev ==> q.wpm == prev[p.id].wpm)
      && (p.wpm.None? && p.id !in prev ==> q.wpm == 0.0)
      && (p.finished.Some? ==> q.finished == p.finished.value)
      && (p.finished.None? && p.id in prev ==> q.finished == prev[p.id].finished)
      && (p.finished.None? && p.id !in prev ==> !q.finished)
    ensures r.byId.Keys == t.byId.Keys + {p.id}
    ensures forall k | k in t.byId && k != p.id :: r.byId[k] == t.byId[k]
    ensures p.id in t.byId ==> r.order == t.order
    ensures p.id !in t.byId ==> r.order == t.order + [p.id]
  {
    var cur := if p.id in t.byId then t.byId[p.id] else Fresh(p);
    Put(t, Merge(cur, p))
  }

  /** `upsertPlayer`: the table becomes `Upserted`, `updatedAt` is bumped, and
      the full player list is broadcast as a `players` event through `send`. */
  function UpsertPlayer(room: Room, p: PartialPlayer, now: Millis, broken: set<ClientId>): (r: Broadcast)
    requires ValidRoom(room)
    ensures ValidRoom(r.room)
    ensures r.room.players == Upserted(room.players, p)
    ensures r.room == room.(players := r.room.players, updatedAt := now,
                            subscribers := Keep(room.subscribers, broken))
    ensures r.delivered == Deliver(Keep(room.subscribers, broken),
                                   Event(PlayersEvent, PlayersData(SerializePlayers(r.room.players))))
    ensures r.dropped == Ids(room.subscribers) * broken
    ensures r.closed == Failed(room.subscribers, broken)
  {
    var table := Upserted(room.players, p);
    var touched := room.(players := table, updatedAt := now);
    Send(touched, PlayersEvent, PlayersData(SerializePlayers(table)), now, broken)
  }

  /** Applying the same partial update twice stores the same table as applying it once. */
  lemma UpsertedTwice(t: PlayerTable, p: PartialPlayer)
    requires ValidTable(t)
    ensures Upserted(Upserted(t, p), p) == Upserted(t, p)
  {
  }

  /** `upsertPlayer` is idempotent on the player table. */
  lemma UpsertTwice(room: Room, p: PartialPlayer, now: Millis, later: Millis, broken: set<ClientId>)
    requires ValidRoom(room)
    ensures var once := UpsertPlayer(room, p, now, broken).room;
      UpsertPlayer(once, p, later, broken).room.players == once.players
  {
    UpsertedTwice(room.players, p);
  }
}
