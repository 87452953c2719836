/**
 The entities of the race store: players, push subscribers and rooms, plus the
 event payloads and frames a room broadcasts. JavaScript `Map`s and `Set`s keep
 insertion order, so each keyed collection carries its order explicitly.
 */
module RaceModel {
  import opened Optional
  import opened JsText

  /** A JavaScript number held in a record field (NaN and the infinities are not modelled). */
  type Number = real

  /** Milliseconds since the epoch, as `Date.now()` returns them. */
  type Millis = int

  datatype Player = Player(id: JsString, name: JsString, progress: Number, wpm: Number, finished: bool)

  /** A `Map<string, Player>`: the entries by key, and the keys in insertion order. */
  datatype PlayerTable = PlayerTable(byId: map<JsString, Player>, order: seq<JsString>)

  const EmptyTable := PlayerTable(map[], [])

  type ClientId = JsString

  /** An SSE subscriber. `heartbeat` says whether its keep-alive timer is still armed. */
  datatype Client = Client(id: ClientId, closed: bool, heartbeat: bool)

  datatype Room = Room(
    id: JsString,
    title: JsString,
    phrase: JsString,
    players: PlayerTable,
    subscribers: seq<Client>,
    startedAt: Option<Millis>,
    createdAt: Millis,
    updatedAt: Millis,
    isPrivate: bool,
    passcode: Option<JsString>,
    maxPlayers: Option<Number>)

  /** The data a room broadcasts: the `state` snapshot, the `players` list, or a winner notice. */
  datatype Payload =
    | StateData(roomId: JsString, phrase: JsString, players: seq<Player>, startedAt: Option<Millis>,
                title: JsString, updatedAt: Millis)
    | PlayersData(list: seq<Player>)
    | WinnerData(playerId: JsString, name: Option<JsString>)

  /** One frame on a push stream: a named event, or the `:hb` keep-alive comment. */
  datatype Frame = Event(name: JsString, data: Payload) | Ping

  /** A frame accepted by one subscriber's stream controller. */
  datatype Delivery = Delivery(to: ClientId, frame: Frame)

  predicate Distinct<T(==)>(s: seq<T>) {
    forall i, j | 0 <= i < j < |s| :: s[i] != s[j]
  }

  function Ids(cs: seq<Client>): set<ClientId> {
    set c | c in cs :: c.id
  }

  /** No two subscribers share an id (a `Set` holds each client object once). */
  predicate DistinctIds(cs: seq<Client>) {
    forall i, j | 0 <= i < j < |cs| :: cs[i].id != cs[j].id
  }

  /** Every key is listed once in `order`, and every entry is filed under its own id. */
  predicate ValidTable(t: PlayerTable) {
    && Distinct(t.order)
    && (forall k | k in t.byId :: k in t.order)
    && (forall k | k in t.order :: k in t.byId)
    && (forall k | k in t.byId :: t.byId[k].id == k)
  }

  /** Clients in a room's set are open and keep their heartbeat armed. */
  predicate ValidSubscribers(cs: seq<Client>) {
    && DistinctIds(cs)
    && (forall c | c in cs :: !c.closed && c.heartbeat)
  }

  predicate ValidRoom(r: Room) {
    ValidTable(r.players) && ValidSubscribers(r.subscribers)
  }

  /** A sequence without repetitions has as many elements as its set. */
  lemma {:induction false} DistinctCard<T>(s: seq<T>)
    requires Distinct(s)
    ensures |set x | x in s| == |s|
  {
    if |s| > 0 {
      var t := s[1..];
      assert Distinct(t);
      DistinctCard(t);
      assert (set x | x in s) == (set x | x in t) + {s[0]};
      assert s[0] !in (set x | x in t);
    }
  }
}
