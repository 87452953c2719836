/**
 The subscription manager of the race store: `safeEnqueue`, `subscribe`,
 `unsubscribe`, `send` and the keep-alive tick. Whether a stream controller's
 `enqueue` throws is an oracle: the set `broken` of client ids whose write fails.
 */
module Subscriptions {
  import opened JsText
  import opened RaceModel
  import opened Snapshots

  /** Event names the store emits. */
  const StateEvent: JsString := Utf16("state")
  const PlayersEvent: JsString := Utf16("players")

  /** Result of an operation on one client: the room, the client's new state,
      and the frames delivered. */
  datatype Step = Step(room: Room, client: Client, delivered: seq<Delivery>)

  /** Result of a broadcast: the room, the frames delivered, the ids of the
      clients whose write failed and which were unsubscribed, and those clients
      as `unsubscribe` left them. */
  datatype Broadcast = Broadcast(room: Room, delivered: seq<Delivery>, dropped: set<ClientId>, closed: seq<Client>)

  /** The clients of `cs` whose id is not in `drop`, in their original order. */
  function Keep(cs: seq<Client>, drop: set<ClientId>): (r: seq<Client>)
    ensures |r| <= |cs|
    ensures forall c :: c in r <==> c in cs && c.id !in drop
    ensures Ids(r) == Ids(cs) - drop
    ensures DistinctIds(cs) ==> DistinctIds(r)
  {
    if |cs| == 0 then []
    else
      var tail := Keep(cs[1..], drop);
      assert forall c | c in cs[1..] :: c in cs;
      assert Ids(cs) == {cs[0].id} + Ids(cs[1..]);
      if cs[0].id in drop then tail
      else
        assert DistinctIds(cs) ==> cs[0].id !in Ids(cs[1..]);
        [cs[0]] + tail
  }

  /** Dropping ids in two rounds is dropping their union. */
  lemma {:induction false} KeepKeep(cs: seq<Client>, a: set<ClientId>, b: set<ClientId>)
    ensures Keep(Keep(cs, a), b) == Keep(cs, a + b)
  {
    if |cs| > 0 {
      KeepKeep(cs[1..], a, b);
      if cs[0].id !in a {
        assert Keep(cs, a) == [cs[0]] + Keep(cs[1..], a);
        assert Keep(cs, a)[1..] == Keep(cs[1..], a);
      }
    }
  }

  /** Only the ids that occur in `cs` matter to `Keep`. */
  lemma {:induction false} KeepRelevant(cs: seq<Client>, drop: set<ClientId>)
    ensures Keep(cs, drop) == Keep(cs, drop * Ids(cs))
  {
    if |cs| > 0 {
      assert Ids(cs) == {cs[0].id} + Ids(cs[1..]);
      KeepRelevant(cs[1..], drop);
      KeepRelevant(cs[1..], drop * Ids(cs));
      assert drop * Ids(cs) * Ids(cs[1..]) == drop * Ids(cs[1..]);
    }
  }

  /** Dropping ids that do not occur changes nothing. */
  lemma {:induction false} KeepNothing(cs: seq<Client>, drop: set<ClientId>)
    requires forall c | c in cs :: c.id !in drop
    ensures Keep(cs, drop) == cs
  {
    if |cs| > 0 {
      assert cs[0] in cs;
      KeepNothing(cs[1..], drop);
      assert cs == [cs[0]] + cs[1..];
    }
  }

  /** One delivery of `f` to each client of `cs`, in order. */
  function Deliver(cs: seq<Client>, f: Frame): (r: seq<Delivery>)
    ensures |r| == |cs|
    ensures forall i | 0 <= i < |r| :: r[i] == Delivery(cs[i].id, f)
  {
    seq(|cs|, i requires 0 <= i < |cs| => Delivery(cs[i].id, f))
  }

  /** Number of deliveries addressed to `id`. */
  function CountTo(ds: seq<Delivery>, id: ClientId): nat {
    if |ds| == 0 then 0 else (if ds[0].to == id then 1 else 0) + CountTo(ds[1..], id)
  }

  /** With distinct ids, a delivery list built by `Deliver` reaches each client exactly once. */
  lemma {:induction false} DeliverOnce(cs: seq<Client>, f: Frame, id: ClientId)
    requires DistinctIds(cs)
    ensures CountTo(Deliver(cs, f), id) == if id in Ids(cs) then 1 else 0
  {
    if |cs| > 0 {
      assert Deliver(cs, f)[1..] == Deliver(cs[1..], f);
      assert Ids(cs) == {cs[0].id} + Ids(cs[1..]);
      assert cs[0].id !in Ids(cs[1..]);
      DeliverOnce(cs[1..], f, id);
    } else {
      assert Ids(cs) == {};
    }
  }

  /** `unsubscribe`: a closed client is left alone; otherwise the client is
      closed, its heartbeat cancelled, and exactly that client leaves the set. */
  function Unsubscribe(room: Room, client: Client): (r: Step)
    ensures r.delivered == []
    ensures client.closed ==> r.room == room && r.client == client
    ensures !client.closed ==> r.client == client.(closed := true, heartbeat := false)
    ensures !client.closed ==> r.room.subscribers == Keep(room.subscribers, {client.id})
    ensures r.room == room.(subscribers := r.room.subscribers)
    ensures forall c | c in room.subscribers :: c in r.room.subscribers <==> client.closed || c.id != client.id
    ensures forall c | c in r.room.subscribers :: c in room.subscribers
    ensures ValidRoom(room) ==> ValidRoom(r.room)
  {
    if client.closed then Step(room, client, [])
    else Step(room.(subscribers := Keep(room.subscribers, {client.id})),
              client.(closed := true, heartbeat := false), [])
  }

  /** Unsubscribing twice is unsubscribing once. */
  lemma UnsubscribeIdempotent(room: Room, client: Client)
    ensures var r := Unsubscribe(room, client); Unsubscribe(r.room, r.client) == r
  {
  }

  /** Unsubscribing a client that is no longer in the subscriber set, closed
      or not, leaves the room unchanged. */
  lemma CancelAfterFailedWrite(room: Room, client: Client)
    requires client.id !in Ids(room.subscribers)
    ensures Unsubscribe(room, client).room == room
  {
    if !client.closed {
      KeepNothing(room.subscribers, {client.id});
    }
  }

  /** `safeEnqueue`: nothing for a closed client; a failed write unsubscribes
      that client only; otherwise the frame is delivered once. */
  function SafeEnqueue(room: Room, client: Client, f: Frame, broken: set<ClientId>): (r: Step)
    ensures client.closed ==> r == Step(room, client, [])
    ensures !client.closed && client.id !in broken ==> r == Step(room, client, [Delivery(client.id, f)])
    ensures !client.closed && client.id in broken ==>
      && r.delivered == []
      && r.client == client.(closed := true, heartbeat := false)
      && r.room == room.(subscribers := Keep(room.subscribers, {client.id}))
  {
    if client.closed then Step(room, client, [])
    else if client.id in broken then Unsubscribe(room, client)
    else Step(room, client, [Delivery(client.id, f)])
  }

  /** One firing of the 15-second keep-alive timer: nothing once the timer is
      cancelled, otherwise a `Ping` through `SafeEnqueue`. */
  function HeartbeatTick(room: Room, client: Client, broken: set<ClientId>): (r: Step)
    ensures !client.heartbeat || client.closed ==> r == Step(room, client, [])
    ensures client.heartbeat && !client.closed && client.id !in broken ==>
      r == Step(room, client, [Delivery(client.id, Ping)])
    ensures client.heartbeat && !client.closed && client.id in broken ==>
      && r.delivered == []
      && r.client == client.(closed := true, heartbeat := false)
      && r.room == room.(subscribers := Keep(room.subscribers, {client.id}))
  {
    if !client.heartbeat then Step(room, client, []) else SafeEnqueue(room, client, Ping, broken)
  }

  /** After `unsubscribe` the heartbeat no longer does anything. */
  lemma NoTickAfterUnsubscribe(room: Room, client: Client, broken: set<ClientId>)
    ensures var u := Unsubscribe(room, client);
      !client.closed ==> HeartbeatTick(u.room, u.client, broken) == Step(u.room, u.client, [])
  {
  }

  /** The clients of `cs` whose write fails, in their original order, as
      `unsubscribe` leaves them: closed and with the keep-alive cleared. */
  function Failed(cs: seq<Client>, broken: set<ClientId>): (r: seq<Client>)
    ensures |r| <= |cs|
    ensures forall c | c in r :: c.closed && !c.heartbeat && c.id in broken
    ensures forall c | c in cs && c.id in broken :: c.(closed := true, heartbeat := false) in r
    ensures Ids(r) == Ids(cs) * broken
  {
    if |cs| == 0 then []
    else
      var tail := Failed(cs[1..], broken);
      assert forall c | c in cs :: c == cs[0] || c in cs[1..];
      assert Ids(cs) == {cs[0].id} + Ids(cs[1..]);
      if cs[0].id in broken then
        var r := [cs[0].(closed := true, heartbeat := false)] + tail;
        assert forall c | c in r :: c == r[0] || c in tail;
        assert forall c | c in tail :: c in r;
        assert Ids(r) == {cs[0].id} + Ids(tail);
        r
      else
        assert forall c | c in cs && c.id in broken :: c in cs[1..];
        tail
  }

  /** The loop of `send` over the snapshot `pending`: each client gets one
      `SafeEnqueue`; the room evolves only by removing the failed ones. */
  function Fanout(room: Room, pending: seq<Client>, f: Frame, broken: set<ClientId>): (r: Broadcast)
    requires DistinctIds(pending)
    requires forall c | c in pending :: !c.closed
    ensures r.dropped == Ids(pending) * broken
    ensures r.room == room.(subscribers := Keep(room.subscribers, r.dropped))
    ensures r.delivered == Deliver(Keep(pending, broken), f)
    ensures r.closed == Failed(pending, broken)
    decreases |pending|
  {
    if |pending| == 0 then
      KeepNothing(room.subscribers, {});
      Broadcast(room, [], {}, [])
    else
      var c := pending[0];
      var st := SafeEnqueue(room, c, f, broken);
      var rest := Fanout(st.room, pending[1..], f, broken);
      FanoutStepDropped(pending, broken, rest.dropped);
      FanoutStepRoom(room, c, f, broken, st, rest.dropped, rest.room);
      FanoutStepDelivered(pending, f, broken, st.delivered, rest.delivered);
      Broadcast(rest.room, st.delivered + rest.delivered, (if c.id in broken then {c.id} else {}) + rest.dropped,
                (if c.id in broken then [st.client] else []) + rest.closed)
  }

  /** One step of `Fanout`, ids: the first client's failure joins the later ones. */
  lemma FanoutStepDropped(pending: seq<Client>, broken: set<ClientId>, later: set<ClientId>)
    requires |pending| > 0
    requires later == Ids(pending[1..]) * broken
    ensures (if pending[0].id in broken then {pending[0].id} else {}) + later == Ids(pending) * broken
  {
  }

  /** One step of `Fanout`, room: removing the first client and then the later
      failures is removing them all at once. */
  lemma FanoutStepRoom(room: Room, c: Client, f: Frame, broken: set<ClientId>, st: Step,
                       later: set<ClientId>, final: Room)
    requires !c.closed
    requires st == SafeEnqueue(room, c, f, broken)
    requires final == st.room.(subscribers := Keep(st.room.subscribers, later))
    ensures final == room.(subscribers := Keep(room.subscribers, (if c.id in broken then {c.id} else {}) + later))
  {
    if c.id in broken {
      KeepKeep(room.subscribers, {c.id}, later);
    } else {
      assert {} + later == later;
    }
  }

  /** One step of `Fanout`, deliveries: the first client's frame, if any, comes
      before the later ones. */
  lemma FanoutStepDelivered(pending: seq<Client>, f: Frame, broken: set<ClientId>,
                            first: seq<Delivery>, later: seq<Delivery>)
    requires |pending| > 0 && !pending[0].closed
    requires first == (if pending[0].id in broken then [] else [Delivery(pending[0].id, f)])
    requires later == Deliver(Keep(pending[1..], broken), f)
    ensures first + later == Deliver(Keep(pending, broken), f)
  {
  }

  /** `send`: bumps `updatedAt`, and over the snapshot of subscribers delivers
      the one frame to every client whose write succeeds and drops every
      client whose write fails. */
  function Send(room: Room, event: JsString, data: Payload, now: Millis, broken: set<ClientId>): (r: Broadcast)
    requires ValidRoom(room)
    ensures r.room == room.(updatedAt := now, subscribers := Keep(room.subscribers, broken))
    ensures r.delivered == Deliver(Keep(room.subscribers, broken), Event(event, data))
    ensures r.dropped == Ids(room.subscribers) * broken
    ensures r.closed == Failed(room.subscribers, broken)
    ensures ValidRoom(r.room)
  {
    var bumped := room.(updatedAt := now);
    var b := Fanout(bumped, bumped.subscribers, Event(event, data), broken);
    KeepRelevant(room.subscribers, broken);
    assert broken * Ids(room.subscribers) == Ids(room.subscribers) * broken;
    b
  }

  /** Failure isolation of `send`: each subscriber whose write succeeds receives
      the frame exactly once, each one whose write fails receives nothing, and
      no client outside the snapshot is reached. */
  lemma SendIsolation(room: Room, event: JsString, data: Payload, now: Millis, broken: set<ClientId>)
    requires ValidRoom(room)
    ensures var r := Send(room, event, data, now, broken);
      && (forall c | c in room.subscribers :: CountTo(r.delivered, c.id) == (if c.id in broken then 0 else 1))
      && (forall id | id !in Ids(room.subscribers) :: CountTo(r.delivered, id) == 0)
  {
    var kept := Keep(room.subscribers, broken);
    forall id {
      DeliverOnce(kept, Event(event, data), id);
    }
  }

  /** After `send`, a subscriber of the snapshot is still subscribed exactly
      when its write succeeded, and every delivered frame is the one event. */
  lemma SendMembership(room: Room, event: JsString, data: Payload, now: Millis, broken: set<ClientId>)
    requires ValidRoom(room)
    ensures var r := Send(room, event, data, now, broken);
      && (forall c | c in room.subscribers :: c in r.room.subscribers <==> c.id !in broken)
      && (forall d | d in r.delivered :: d.frame == Event(event, data))
  {
  }

  /** A client that `send` dropped is left as `unsubscribe` leaves it, so its
      keep-alive timer no longer delivers or changes anything. */
  lemma SendStopsTimers(room: Room, event: JsString, data: Payload, now: Millis, broken: set<ClientId>)
    requires ValidRoom(room)
    ensures var r := Send(room, event, data, now, broken);
      && Ids(r.closed) == Ids(room.subscribers) * broken
      && (forall c, later: Room, b: set<ClientId> | c in r.closed :: HeartbeatTick(later, c, b) == Step(later, c, []))
  {
  }

  /** `subscribe`: a new open client with an armed heartbeat joins the set, and
      the first frame attempted to it is the `state` event for the room's
      current snapshot; if that write fails the client ends closed and the
      room is exactly as before. */
  function Subscribe(room: Room, freshId: ClientId, broken: set<ClientId>): (r: Step)
    requires ValidRoom(room)
    requires freshId !in Ids(room.subscribers)
    ensures r.client.id == freshId
    ensures freshId !in broken ==>
      && r.client == Client(freshId, false, true)
      && r.room == room.(subscribers := room.subscribers + [r.client])
      && r.delivered == [Delivery(freshId, Event(StateEvent, Serialize(room)))]
    ensures freshId in broken ==> r.room == room && r.client.closed && !r.client.heartbeat && r.delivered == []
    ensures ValidRoom(r.room)
  {
    var client := Client(freshId, false, true);
    var joined := room.(subscribers := room.subscribers + [client]);
    assert Serialize(joined) == Serialize(room);
    var st := SafeEnqueue(joined, client, Event(StateEvent, Serialize(joined)), broken);
    if freshId in broken then
      KeepKeep(room.subscribers, {}, {});
      assert Keep(room.subscribers + [client], {freshId}) == room.subscribers by {
        KeepAppend(room.subscribers, client, {freshId});
        KeepNothing(room.subscribers, {freshId});
      }
      st
    else st
  }

  /** `Keep` distributes over appending one client. */
  lemma {:induction false} KeepAppend(cs: seq<Client>, c: Client, drop: set<ClientId>)
    ensures Keep(cs + [c], drop) == Keep(cs, drop) + (if c.id in drop then [] else [c])
  {
    if |cs| > 0 {
      assert (cs + [c])[1..] == cs[1..] + [c];
      KeepAppend(cs[1..], c, drop);
    }
  }
}
