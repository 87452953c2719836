# Typing-race room store and phrase-corpus builder, in Dafny

This project models two sequential pieces of a typing-race web application.

1. **The race-room store** (`src/lib/server/raceStore.ts`). It covers:
   - the process-wide registry of rooms, with idempotent `createRoom` and `getOrCreateRoom`;
   - each room's set of server-sent-events subscribers: `subscribe`, `unsubscribe`, `safeEnqueue`, the keep-alive tick and the `send` fan-out;
   - the player table: `upsertPlayer` and `serializePlayers`;
   - the read-only views `serialize` and `listRooms`.
2. **The phrase-corpus builder** (`scripts/generate-phrases.mjs`). It covers:
   - the dependency-free option parser;
   - the `--sets` list;
   - the length filter and the padding of short candidates;
   - the dedup loop `buildList`.

Every operation is a pure function from state to state. The outside world is passed in as parameters:

- the clock (`Date.now`) is a `now` argument;
- `crypto.randomUUID` is a supplied fresh id;
- the random index into the phrase pool is a supplied `pick`;
- the random candidate stream of the generator is a supplied sequence;
- whether a stream controller's `enqueue` throws is the oracle set `broken` of client ids.

A broadcast returns the new room plus the list of `Delivery(client, frame)` values the controllers accepted. A frame is abstract: `Event(name, payload)` or the keep-alive `Ping`. The module `Frames` gives the literal `event: <name>\ndata: <json>\n\n` template and proves that the template can be parsed back.

JavaScript strings in the store are sequences of UTF-16 code units (`JsText.Unit`), because `.length` and `.slice` count code units; this matters for the 32-unit phrase preview. Strings in the phrase script are sequences of code points, because `acceptableLen` counts `[...s]`. JavaScript `Map`s and `Set`s keep insertion order, so:

- the player table is `PlayerTable(byId, order)`;
- the registry is `Registry(rooms, order)`;
- a room's subscriber set is a sequence of clients with distinct ids.

`listRooms` sorts with the engine's stable sort, so rooms with equal `updatedAt` keep their creation order. The model proves this too.

Some behaviour worth knowing when reading the model:

- `upsertPlayer` itself does no clamping of `progress`/`wpm`, no first-finisher detection and no admission check. Those happen in the HTTP route handlers, which are not part of this model.
- The join route keeps the first 20 UTF-16 code units of the player's name and falls back to `'player'` when the result is empty.
- The events route stores the client on the stream controller, but its `cancel` handler reads it from the underlying-source object. As written, a disconnected client is therefore not unsubscribed by `cancel`; it is removed by the next failed keep-alive or broadcast write. That route is not part of this model.
- The option parser treats an empty-string token after `--key` as "no value" (JavaScript's `!next`). So `--key ""` sets `key` to `true`, and the empty token is then skipped.

## Model

| member | source | states |
|---|---|---|
| `Registry.CreateRoom` | src/lib/server/raceStore.ts:43-73 | The key is the given id (or the fresh id), lower-cased. If that key exists, the existing room comes back and the registry is unchanged. Otherwise exactly one entry `id ↦ room` is added at the end of the insertion order, with `createdAt == updatedAt == now`, no players, no subscribers and no `startedAt`. The title, phrase, passcode, privacy and capacity follow the creation defaults. A valid registry stays valid. |
| `Registry.TitleFor` | src/lib/server/raceStore.ts:60 | The title is the trimmed title when that is non-empty. Otherwise it is `"방 "` followed by the first six code units of the id. |
| `Registry.PasscodeFor` | src/lib/server/raceStore.ts:67 | A stored passcode is the trimmed input, is non-empty and has no white space at either end. It is absent exactly when no passcode was given or the given one is all white space. |
| `Registry.PhraseFor` | src/lib/server/raceStore.ts:54-55 | A given phrase is kept, even an empty one. Otherwise the phrase is the picked pool element, or the fixed fallback text when the pool is empty. |
| `Registry.CreateIdempotent` | src/lib/server/raceStore.ts:51-52 | A second `createRoom` with the same id returns the first call's result exactly: same registry, same room. Its other arguments, the clock and the pool are ignored. |
| `Registry.GetOrCreateRoom` | src/lib/server/raceStore.ts:38-40 | On a valid registry, the result is always the room stored under `lower(id)`, and the registry stays valid. It is unchanged when that key already existed. Otherwise the result is exactly `createRoom({ id })`: one new public room with every creation default, stamped `now`. No existing entry is ever altered. |
| `Registry.Store` | src/lib/server/raceStore.ts:35 | A room changed in place by another operation keeps the registry valid, provided it keeps its id and stays well formed. The keys, the order and the other rooms are unchanged. |
| `JsText.LowerIsLower` | src/lib/server/raceStore.ts:51 | Lower-casing is idempotent, so every registry key is already lower-case. |
| `JsText.Lower` | src/lib/server/raceStore.ts:51 | `toLowerCase` keeps the length and maps each code unit on its own to its lower-case form (ASCII letters only, see Left out). |
| `JsText.Trim` | src/lib/server/raceStore.ts:60 | `trim` returns the infix left after removing a white-space prefix and a white-space suffix. The result neither starts nor ends with white space. It is empty exactly when the input is all white space. |
| `Subscriptions.Unsubscribe` | src/lib/server/raceStore.ts:106-112 | A closed client is left alone. Otherwise the client becomes closed with its heartbeat cancelled, and exactly that client leaves the subscriber set. No other room field changes. |
| `Subscriptions.UnsubscribeIdempotent` | src/lib/server/raceStore.ts:106-107 | Unsubscribing twice has the same effect as unsubscribing once. |
| `Subscriptions.CancelAfterFailedWrite` | src/lib/server/raceStore.ts:106-112 | `unsubscribe` of a client that is no longer in the set, for instance one a failed write already removed, leaves the room as it is. |
| `Subscriptions.SafeEnqueue` | src/lib/server/raceStore.ts:76-84 | A closed client gets nothing and nothing changes. A client whose write fails ends closed and removed from the set, with nothing delivered. Otherwise the frame is delivered to it once and nothing changes. |
| `Subscriptions.HeartbeatTick` | src/lib/server/raceStore.ts:91-95 | A cancelled timer, or a timer of a closed client, does nothing. An armed timer of an open client whose write succeeds delivers one `Ping` and changes nothing else. One whose write fails delivers nothing, leaves the client closed with its timer cleared, and removes exactly that client from the room. |
| `Subscriptions.NoTickAfterUnsubscribe` | src/lib/server/raceStore.ts:109 | Once a client is unsubscribed, its keep-alive no longer delivers or changes anything. |
| `Subscriptions.Fanout` | src/lib/server/raceStore.ts:117 | Over the snapshot, the clients whose write fails are the ones removed from the live set. Each surviving client of the snapshot receives the frame once, in snapshot order. |
| `Subscriptions.Send` | src/lib/server/raceStore.ts:114-118 | `updatedAt` becomes `now`. The subscribers are the old ones minus those whose write failed, in order. The deliveries are the one `Event(event, data)` frame to each remaining subscriber, in order. The clients whose write failed are returned as `unsubscribe` left them: closed, with the keep-alive cleared. The room stays well formed. |
| `Subscriptions.SendIsolation` | src/lib/server/raceStore.ts:114-118 | Every subscriber whose write succeeds receives the frame exactly once. Every subscriber whose write fails receives nothing. Any id outside the snapshot receives nothing. |
| `Subscriptions.SendMembership` | src/lib/server/raceStore.ts:117 | A subscriber of the snapshot is still subscribed after `send` exactly when its write succeeded. Every delivered frame is the one event being sent. |
| `Subscriptions.SendStopsTimers` | src/lib/server/raceStore.ts:106-110 | The clients `send` drops are exactly the snapshot's failing ones. After `send`, none of their keep-alive timers delivers or changes anything. |
| `Subscriptions.Failed` | src/lib/server/raceStore.ts:80-83 | The clients of a snapshot whose write fails, as `unsubscribe` leaves them: each is closed with its timer cleared, each failing client appears, and their ids are exactly the failing ids. |
| `Subscriptions.Subscribe` | src/lib/server/raceStore.ts:86-104 | A new open client with an armed heartbeat is appended to the set. The one frame sent to it is the `state` event carrying `serialize(room)` as it was before the call. If that write fails, the client ends closed and the room is exactly as before. |
| `Snapshots.SerializePlayers` | src/lib/server/raceStore.ts:139-141 | Every stored player appears exactly once, in insertion order, and nothing else appears. |
| `Snapshots.Serialize` | src/lib/server/raceStore.ts:128-137 | The `state` payload carries the room's id, phrase, title, `updatedAt`, `startedAt` (null when absent) and full player list. |
| `Players.Upserted` | src/lib/server/raceStore.ts:120-123 | A new id starts from `name = 'player'` (unless a name is given), `progress = 0`, `wpm = 0` and `finished = false`. Fields present in the partial record override; absent fields keep their stored values. The key set gains only the id, and every other player is unchanged. A new id goes to the end of the insertion order; an existing one keeps its place. |
| `Players.UpsertPlayer` | src/lib/server/raceStore.ts:120-126 | The table becomes the upserted one and `updatedAt` becomes `now`. A `players` event carrying the full new player list goes to every subscriber whose write succeeds. Failed subscribers are removed and returned closed, with the keep-alive cleared. The room stays well formed. |
| `Players.UpsertedTwice` | src/lib/server/raceStore.ts:121-123 | Merging the same partial record twice gives the same table as merging it once. |
| `Players.UpsertTwice` | src/lib/server/raceStore.ts:120-126 | `upsertPlayer` is idempotent on the player table, whatever the clock says. |
| `Players.Fresh` | src/lib/server/raceStore.ts:121 | A new player has the given id, the given name or `'player'`, progress 0, wpm 0 and is not finished. |
| `Players.Merge` | src/lib/server/raceStore.ts:122 | The spread `{ ...cur, ...partial }`: every field present in the partial record wins, and every absent field keeps the stored value. |
| `Players.MergeTwice` | src/lib/server/raceStore.ts:122 | Spreading the same partial record a second time changes nothing. |
| `Players.Put` | src/lib/server/raceStore.ts:123 | `players.set` stores the player under its id and keeps the table well formed. An existing id keeps its place in the insertion order, and a new one is appended. |
| `Listing.Preview` | src/lib/server/raceStore.ts:157 | A phrase of at most 32 code units is shown unchanged. A longer one is shown as its first 32 code units followed by one `…`. |
| `Listing.Summarize` | src/lib/server/raceStore.ts:150-160 | The summary carries the room's id, title, `createdAt`, `updatedAt`, privacy flag and `maxPlayers` (null when unset). The counts equal the sizes of the player table and of the subscriber set. The preview is `Preview(phrase)`. |
| `Listing.SummariesOf` | src/lib/server/raceStore.ts:149-161 | The loop over `rooms.values()` yields one summary per key, in registry order, each the summary of that key's room. |
| `Listing.InsertByRecency` | src/lib/server/raceStore.ts:162 | Inserting into a list already sorted newest-first keeps it sorted. The result is the old list plus the new summary, as a multiset. The new summary lands after every summary with the same stamp. |
| `Listing.SortByRecency` | src/lib/server/raceStore.ts:162 | The sort returns a permutation of its input, sorted by non-increasing `updatedAt`. It is stable: summaries with equal stamps keep their relative order. |
| `Listing.ListRooms` | src/lib/server/raceStore.ts:143-163 | There is exactly one summary per room, each equal to that room's summary, and no other. The list is sorted newest-first. Rooms with equal `updatedAt` appear in registry insertion order. |
| `Frames.ParseRender` | src/lib/server/raceStore.ts:116 | For an event name without a line break, the frame `event: <name>\ndata: <json>\n\n` parses back to exactly that name and data text. |
| `Frames.RenderParse` | src/lib/server/raceStore.ts:100 | Every text that parses as an event frame is exactly the template applied to the name and data it parses to. That name has no line break. |
| `Frames.PingIsNotEvent` | src/lib/server/raceStore.ts:93 | The `:hb` keep-alive is not an event frame. |
| `Frames.RenderParses` | src/lib/server/raceStore.ts:93-100 | The text written for any frame parses back to what was sent. An event whose name has no line break gives its name and data text. The keep-alive gives nothing. |
| `Frames.EventText` | src/lib/server/raceStore.ts:100 | The frame text starts with `event: `, ends with a blank line, carries the event name right after the tag, and has exactly the length of its parts. |
| `PhraseArgs.ParseIsBindings` | scripts/generate-phrases.mjs:15-29 | The parsing loop equals an independent reading of the tokens. In that reading every `--key` token binds `key` to the next token, unless that token is missing, empty or itself an option, in which case it binds `true`. Later bindings override earlier ones. |
| `PhraseArgs.ParseArgs` | scripts/generate-phrases.mjs:15-29 | The options parsed from the tokens are the independent reading `Bindings` of them. |
| `PhraseArgs.ParseFrom` | scripts/generate-phrases.mjs:17-28 | The loop never removes a key. A key that no remaining `--` token names keeps its value. |
| `PhraseArgs.ParseKeys` | scripts/generate-phrases.mjs:18-20 | The parsed keys are exactly the keys of the `--` tokens. A token that is not an option and was not consumed as a value adds nothing. |
| `PhraseArgs.ParseLastWins` | scripts/generate-phrases.mjs:19-27 | The last `--key` token decides `key`. It takes the following token when that token is non-empty and not an option. Otherwise it takes `true`. |
| `PhraseArgs.Split` | scripts/generate-phrases.mjs:36-37 | `split(",")` yields at least one piece. No piece contains a comma, and the pieces joined with commas give back the input. |
| `PhraseArgs.SplitJoin` | scripts/generate-phrases.mjs:36-37 | Splitting a comma-join of comma-free pieces returns exactly those pieces. |
| `PhraseArgs.Sets` | scripts/generate-phrases.mjs:36-37 | Every `SETS` entry is non-empty, is its own trim, holds no comma, and is the trim of some comma-separated piece. Every piece whose trim is non-empty is listed. |
| `PhraseArgs.SetsOption` | scripts/generate-phrases.mjs:36 | The `--sets` text is the default list when no `--sets` token is given. Otherwise it is the value the last `--sets` token takes, or `"true"` when that token takes none. |
| `PhraseList.Lengthen` | scripts/generate-phrases.mjs:167-170 | A candidate of at least `MIN_LEN` code points is kept. A shorter non-empty trimmed candidate becomes the candidate, a space and the whole language pad, so two spaces separate them. The empty candidate becomes the pad without its leading space. Every padded result has no white space at either end. |
| `PhraseList.PadFor` | scripts/generate-phrases.mjs:168 | `--lang en` gets the English pad `" Keep practicing."`; every other setting gets the Korean pad. Each pad starts with one space followed by a non-space and ends with a non-space. |
| `PhraseList.AcceptableLen` | scripts/generate-phrases.mjs:134-137 | A candidate is acceptable exactly when its code-point count lies in `[MIN_LEN, MAX_LEN]`. Strings in this part of the model are sequences of code points, so a string's length is `[...s].length`. |
| `PhraseList.Accepted` | scripts/generate-phrases.mjs:186-192 | Every kept item has a code-point length in `[MIN_LEN, MAX_LEN]`. No two kept items share a lower-cased key. The items form an order-preserving subsequence of the candidates pulled. |
| `PhraseList.AcceptedFromCands` | scripts/generate-phrases.mjs:186-192 | Every kept item is one of the candidates pulled. |
| `PhraseList.AcceptedCovers` | scripts/generate-phrases.mjs:186-192 | The lower-cased key of every acceptable candidate is among the keys of the kept items. Nothing acceptable is dropped except as a duplicate. |
| `PhraseList.AcceptedKeepsFirst` | scripts/generate-phrases.mjs:186-192 | A candidate that is acceptable and is the first acceptable candidate with its key is kept. |
| `PhraseList.NewKey` | scripts/generate-phrases.mjs:188-190 | When the latest candidate is acceptable and is the first acceptable candidate with its key, that key is not yet in the `uniq` set built from the earlier candidates. So the key test lets it through. |
| `PhraseList.BuildList` | scripts/generate-phrases.mjs:177-198 | The loop returns at most `COUNT` items after at most `COUNT * 20` pulls. It stops only with `COUNT` items or with the attempts used up. Its output is the greedy acceptance of exactly the candidates it pulled, so the length, uniqueness and order properties hold. The key of every acceptable candidate pulled is among the output's keys, so a short output means the pulls held fewer than `COUNT` distinct acceptable keys. |

## Left out

- The HTTP route handlers (`api/rooms`, `api/rooms/create`, `api/race/[roomId]/join`, `progress`, `events`) and the page loaders. They hold request parsing, the passcode and capacity checks, the clamping of `progress`/`wpm`, and first-finisher detection. None of these is in the store. The `WinnerData` payload shape is kept only so that `send` can carry it.
- Timer scheduling: `setInterval`/`clearInterval` become the `heartbeat` flag. `HeartbeatTick` is one firing; there is no real time.
- `ReadableStreamDefaultController`, `TextEncoder` and `JSON.stringify` are foreign. Frames are abstract values, enqueue failure is the `broken` oracle, and JSON text is a supplied function in `Frames.Render`.
- `Date.now`, `crypto.randomUUID` and `Math.random` are parameters. `Subscriptions.Subscribe` requires that the fresh client id is not already in use, as a UUID guarantees. `Registry.CreateRoom` requires that the random index is in range when the pool is non-empty, as `Math.floor(Math.random() * n)` guarantees.
- Client object identity is modelled as identity of the client's id.
- `JsText.Lower`: only ASCII letters are lower-cased. Unicode case mapping is not modelled.
- Numbers are Dafny `real`s (timestamps are `int`s): NaN, the infinities and floating-point rounding are not modelled.
- `Players.Upserted`: a partial record whose key is present with the value `undefined` is not modelled. Each field is either absent or carries a value. In JavaScript such a key overwrites the stored field with `undefined`, for example the name in a progress update sent without one.
- `startedAt` is never set by the store; it is only carried through `serialize`.
- `Listing.Preview`: cutting at 32 code units can split a surrogate pair. The model shows the resulting unit sequence as it is and says nothing about it being well-formed UTF-16.
- `PhraseArgs.Sets`: does not state that the entries keep the order and the multiplicity of the comma-separated pieces, though the definition keeps both. A repeated set name, as in `a,a`, stays listed twice, and so weighs twice in a random pick.
- In the phrase script:
  - the category dispatch and the templates of `generator`;
  - `normalize` (NFC, removal of zero-width and no-break spaces) and whitespace collapsing;
  - `console.warn`;
  - `saveJSON` and file I/O;
  - `Number()` conversion of `--count`/`--min`/`--max`: `COUNT` is a natural number, so fractional and NaN counts are not modelled.

  The candidate stream given to `BuildList` is what the generator yields after its padding step (`Lengthen`).
- `PhraseList.BuildList`: the lower-casing `toLowerCase` is the uninterpreted parameter `fold`.
- `PhraseArgs.ParseArgs`: the options object is a plain map. Prototype keys such as `__proto__` are not modelled.
