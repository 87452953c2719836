/**
 The room registry of the race store: the process-wide `rooms` map,
 `createRoom` and `getOrCreateRoom`. The clock, `crypto.randomUUID` and the
 random pick from the phrase pool are parameters.
 */
module Registry {
  import opened Optional
  import opened JsText
  import opened RaceModel

  /** The `rooms` map: rooms by key, and the keys in insertion order. */
  datatype Registry = Registry(rooms: map<JsString, Room>, order: seq<JsString>)

  /** The optional arguments of `createRoom`. */
  datatype RoomParams = RoomParams(
    id: Option<JsString>,
    title: Option<JsString>,
    phrase: Option<JsString>,
    isPrivate: Option<bool>,
    passcode: Option<JsString>,
    maxPlayers: Option<Number>)

  /** Result of a registry operation: the registry and the room returned. */
  datatype Created = Created(registry: Registry, room: Room)

  /** The phrase used when none is given and the pool is empty. */
  const FallbackPhrase: JsString := Utf16("연습 문구가 없습니다.")

  /** The prefix of a default title; the first six units of the id follow it. */
  const TitlePrefix: JsString := Utf16("방 ")

  /** Every key is listed once in insertion order, is lower-case, equals its
      room's id, and every room is well formed. */
  predicate Valid(reg: Registry) {
    && Distinct(reg.order)
    && (forall k | k in reg.rooms :: k in reg.order)
    && (forall k | k in reg.order :: k in reg.rooms)
    && (forall k | k in reg.rooms :: reg.rooms[k].id == k && IsLower(k) && ValidRoom(reg.rooms[k]))
  }

  function Min(a: int, b: int): int {
    if a <= b then a else b
  }

  /** `params.title?.trim() || \`방 ${id.slice(0, 6)}\`` */
  function TitleFor(title: Option<JsString>, id: JsString): (r: JsString)
    ensures title.Some? && |TrimJs(title.value)| > 0 ==> r == TrimJs(title.value)
    ensures (title.None? || |TrimJs(title.value)| == 0) ==>
      r == TitlePrefix + id[..Min(6, |id|)]
  {
    if title.Some? && |TrimJs(title.value)| > 0 then TrimJs(title.value)
    else TitlePrefix + id[..Min(6, |id|)]
  }

  /** `params.passcode?.trim() || undefined`: a stored passcode is never empty
      and never has white space at either end. */
  function PasscodeFor(passcode: Option<JsString>): (r: Option<JsString>)
    ensures r.Some? ==> passcode.Some? && r.value == TrimJs(passcode.value) && |r.value| > 0
    ensures r.Some? ==> !IsSpaceUnit(r.value[0]) && !IsSpaceUnit(r.value[|r.value| - 1])
    ensures r.None? <==> passcode.None? || forall k | 0 <= k < |passcode.value| :: IsSpaceUnit(passcode.value[k])
  {
    if passcode.Some? && |TrimJs(passcode.value)| > 0 then Some(TrimJs(passcode.value)) else None
  }

  /** `params.phrase ?? pool[pick] ?? fallback`, where `pick` is the random index. */
  function PhraseFor(phrase: Option<JsString>, pool: seq<JsString>, pick: nat): (r: JsString)
    requires |pool| > 0 ==> pick < |pool|
    ensures phrase.Some? ==> r == phrase.value
    ensures phrase.None? && |pool| > 0 ==> r == pool[pick] && r in pool
    ensures phrase.None? && |pool| == 0 ==> r == FallbackPhrase
  {
    if phrase.Some? then phrase.value
    else if pick < |pool| then pool[pick]
    else FallbackPhrase
  }

  /** `createRoom`. The id is the given one, or `freshId`, lower-cased. An
      existing room under that key is returned with the registry untouched;
      otherwise a new empty room stamped `now` is added under that key and
      nothing else changes. */
  function CreateRoom(reg: Registry, params: RoomParams, freshId: JsString, pool: seq<JsString>,
                      pick: nat, now: Millis): (r: Created)
    requires |pool| > 0 ==> pick < |pool|
    ensures var id := Lower(params.id.GetOr(freshId));
      && (id in reg.rooms ==> r == Created(reg, reg.rooms[id]))
      && (id !in reg.rooms ==>
          && r.registry.rooms == reg.rooms[id := r.room]
          && r.registry.order == reg.order + [id]
          && r.room.id == id
          && r.room.createdAt == now && r.room.updatedAt == now
          && r.room.players == EmptyTable && r.room.subscribers == [] && r.room.startedAt == None
          && r.room.title == TitleFor(params.title, id)
          && r.room.phrase == PhraseFor(params.phrase, pool, pick)
          && r.room.isPrivate == (params.isPrivate == Some(true))
          && r.room.passcode == PasscodeFor(params.passcode)
          && r.room.maxPlayers == params.maxPlayers)
    ensures Valid(reg) ==> Valid(r.registry) && r.room == r.registry.rooms[Lower(params.id.GetOr(freshId))]
  {
    var id := Lower(params.id.GetOr(freshId));
    LowerIsLower(params.id.GetOr(freshId));
    if id in reg.rooms then Created(reg, reg.rooms[id])
    else
      var room := Room(id, TitleFor(params.title, id), PhraseFor(params.phrase, pool, pick), EmptyTable, [],
                       None, now, now, params.isPrivate == Some(true), PasscodeFor(params.passcode),
                       params.maxPlayers);
      Created(Registry(reg.rooms[id := room], reg.order + [id]), room)
  }

  /** Creation is idempotent: a second `createRoom` for the same id returns the
      room made by the first and ignores its other arguments. */
  lemma CreateIdempotent(reg: Registry, params: RoomParams, again: RoomParams, freshId: JsString,
                         pool: seq<JsString>, pick: nat, now: Millis, pool2: seq<JsString>, pick2: nat,
                         later: Millis)
    requires |pool| > 0 ==> pick < |pool|
    requires |pool2| > 0 ==> pick2 < |pool2|
    requires params.id.Some? && again.id == params.id
    ensures var first := CreateRoom(reg, params, freshId, pool, pick, now);
      CreateRoom(first.registry, again, freshId, pool2, pick2, later) == first
  {
  }

  /** `getOrCreateRoom(id)`: `rooms.get(id) ?? createRoom({ id })`. */
  function GetOrCreateRoom(reg: Registry, id: JsString, pool: seq<JsString>, pick: nat, now: Millis): (r: Created)
    requires |pool| > 0 ==> pick < |pool|
    ensures Valid(reg) ==> Valid(r.registry)
    ensures Valid(reg) ==> Lower(id) in r.registry.rooms && r.room == r.registry.rooms[Lower(id)]
    ensures Valid(reg) && Lower(id) in reg.rooms ==> r == Created(reg, reg.rooms[Lower(id)])
    ensures Valid(reg) && Lower(id) !in reg.rooms ==>
      r == CreateRoom(reg, RoomParams(Some(id), None, None, None, None, None), id, pool, pick, now)
    ensures forall k | k in reg.rooms :: k in r.registry.rooms && r.registry.rooms[k] == reg.rooms[k]
  {
    if id in reg.rooms then Created(reg, reg.rooms[id])
    else CreateRoom(reg, RoomParams(Some(id), None, None, None, None, None), id, pool, pick, now)
  }

  /** A room changed in place by another operation, seen through the registry:
      the registry stays valid as long as the room keeps its id and stays well formed. */
  function Store(reg: Registry, room: Room): (r: Registry)
    requires room.id in reg.rooms
    ensures r.rooms.Keys == reg.rooms.Keys && r.order == reg.order
    ensures r.rooms[room.id] == room
    ensures forall k | k in reg.rooms && k != room.id :: r.rooms[k] == reg.rooms[k]
    ensures Valid(reg) && ValidRoom(room) ==> Valid(r)
  {
    Registry(reg.rooms[room.id := room], reg.order)
  }
}
