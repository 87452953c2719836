/** `listRooms`: one summary per room, most recently updated first. */
module Listing {
  import opened Optional
  import opened JsText
  import opened RaceModel
  import opened Registry

  datatype Summary = Summary(
    id: JsString,
    title: JsString,
    createdAt: Millis,
    updatedAt: Millis,
    playersCount: nat,
    spectatorsCount: nat,
    phrasePreview: JsString,
    isPrivate: bool,
    maxPlayers: Option<Number>)

  /** The longest phrase shown unabridged, in UTF-16 code units. */
  const PreviewLength := 32

  /** U+2026 HORIZONTAL ELLIPSIS. */
  const Ellipsis: Unit := 0x2026

  /** The phrase preview: the phrase itself when it is at most 32 code units
      long, else its first 32 code units followed by one ellipsis. */
  function Preview(phrase: JsString): (r: JsString)
    ensures |phrase| <= PreviewLength ==> r == phrase
    ensures |phrase| > PreviewLength ==>
      |r| == PreviewLength + 1 && r[..PreviewLength] == phrase[..PreviewLength] && r[PreviewLength] == Ellipsis
    ensures |r| <= PreviewLength + 1
  {
    if |phrase| > PreviewLength then phrase[..PreviewLength] + [Ellipsis] else phrase
  }

  /** The summary of one room; `maxPlayers` stays absent (null) when unset. */
  function Summarize(r: Room): (s: Summary)
    ensures s.id == r.id && s.updatedAt == r.updatedAt
    ensures s.playersCount == |r.players.byId| && s.spectatorsCount == |r.subscribers|
    ensures s.title == r.title && s.createdAt == r.createdAt && s.isPrivate == r.isPrivate
    ensures s.phrasePreview == Preview(r.phrase)
    ensures s.maxPlayers == r.maxPlayers
  {
    Summary(r.id, r.title, r.createdAt, r.updatedAt, |r.players.byId|, |r.subscribers|, Preview(r.phrase),
            r.isPrivate, r.maxPlayers)
  }

  /** The summaries of the rooms under `keys`, in that order (the `for ... of rooms.values()` loop). */
  function SummariesOf(rooms: map<JsString, Room>, keys: seq<JsString>): (r: seq<Summary>)
    requires forall k | k in keys :: k in rooms
    ensures |r| == |keys|
    ensures forall i | 0 <= i < |keys| :: r[i] == Summarize(rooms[keys[i]])
  {
    seq(|keys|, i requires 0 <= i < |keys| => Summarize(rooms[keys[i]]))
  }

  /** Non-increasing `updatedAt`. */
  predicate ByRecency(s: seq<Summary>) {
    forall i, j | 0 <= i < j < |s| :: s[i].updatedAt >= s[j].updatedAt
  }

  /** The summaries stamped `t`, in their order in `s`. */
  function StampedAt(s: seq<Summary>, t: Millis): (r: seq<Summary>)
    ensures |r| <= |s|
  {
    if |s| == 0 then [] else (if s[0].updatedAt == t then [s[0]] else []) + StampedAt(s[1..], t)
  }

  lemma {:induction false} StampedAtConcat(a: seq<Summary>, b: seq<Summary>, t: Millis)
    ensures StampedAt(a + b, t) == StampedAt(a, t) + StampedAt(b, t)
  {
    if |a| > 0 {
      assert (a + b)[0] == a[0];
      assert (a + b)[1..] == a[1..] + b;
      StampedAtConcat(a[1..], b, t);
    } else {
      assert a + b == b;
    }
  }

  lemma {:induction false} StampedAtNone(s: seq<Summary>, t: Millis)
    requires forall x | x in s :: x.updatedAt < t
    ensures StampedAt(s, t) == []
  {
    if |s| > 0 {
      assert s[0] in s;
      StampedAtNone(s[1..], t);
    }
  }

  /** Inserts `x` into a list sorted by recency, after every entry at least as
      recent, so entries with equal stamps keep their arrival order. */
  function InsertByRecency(s: seq<Summary>, x: Summary): (r: seq<Summary>)
    requires ByRecency(s)
    ensures ByRecency(r)
    ensures multiset(r) == multiset(s) + multiset{x}
    ensures forall t :: StampedAt(r, t) == StampedAt(s, t) + (if x.updatedAt == t then [x] else [])
  {
    if |s| == 0 then [x]
    else if s[0].updatedAt >= x.updatedAt then
      var tail := InsertByRecency(s[1..], x);
      InsertBehind(s, x, tail);
      [s[0]] + tail
    else
      InsertInFront(s, x);
      [x] + s
  }

  /** The step of `InsertByRecency` that keeps the head and inserts into the rest. */
  lemma InsertBehind(s: seq<Summary>, x: Summary, tail: seq<Summary>)
    requires ByRecency(s) && |s| > 0 && s[0].updatedAt >= x.updatedAt
    requires ByRecency(tail)
    requires multiset(tail) == multiset(s[1..]) + multiset{x}
    requires forall t :: StampedAt(tail, t) == StampedAt(s[1..], t) + (if x.updatedAt == t then [x] else [])
    ensures ByRecency([s[0]] + tail)
    ensures multiset([s[0]] + tail) == multiset(s) + multiset{x}
    ensures forall t :: StampedAt([s[0]] + tail, t) == StampedAt(s, t) + (if x.updatedAt == t then [x] else [])
  {
    assert s == [s[0]] + s[1..];
    HeadDominates(s, x, tail);
    forall t ensures StampedAt([s[0]] + tail, t) == StampedAt(s, t) + (if x.updatedAt == t then [x] else []) {
      ConsStamped(s[0], s[1..], tail, (if x.updatedAt == t then [x] else []), t);
    }
  }

  /** Putting the same head in front of two lists keeps their stamp-`t` relation. */
  lemma ConsStamped(h: Summary, rest: seq<Summary>, tail: seq<Summary>, extra: seq<Summary>, t: Millis)
    requires StampedAt(tail, t) == StampedAt(rest, t) + extra
    ensures StampedAt([h] + tail, t) == StampedAt([h] + rest, t) + extra
  {
    StampedAtConcat([h], tail, t);
    StampedAtConcat([h], rest, t);
  }

  lemma HeadDominates(s: seq<Summary>, x: Summary, tail: seq<Summary>)
    requires ByRecency(s) && |s| > 0 && s[0].updatedAt >= x.updatedAt
    requires ByRecency(tail)
    requires multiset(tail) == multiset(s[1..]) + multiset{x}
    ensures ByRecency([s[0]] + tail)
  {
    forall y | y in tail ensures s[0].updatedAt >= y.updatedAt {
      assert y in multiset(tail);
      if y != x {
        assert y in multiset(s[1..]);
        var i :| 0 <= i < |s[1..]| && s[1..][i] == y;
        assert s[i + 1] == y;
      }
    }
    var r := [s[0]] + tail;
    forall i, j | 0 <= i < j < |r| ensures r[i].updatedAt >= r[j].updatedAt {
      if i == 0 {
        assert r[j] == tail[j - 1];
        assert r[j] in tail;
      } else {
        assert r[i] == tail[i - 1] && r[j] == tail[j - 1];
      }
    }
  }

  /** The step of `InsertByRecency` that places `x` first. */
  lemma InsertInFront(s: seq<Summary>, x: Summary)
    requires ByRecency(s) && |s| > 0 && s[0].updatedAt < x.updatedAt
    ensures ByRecency([x] + s)
    ensures forall t :: StampedAt([x] + s, t) == StampedAt(s, t) + (if x.updatedAt == t then [x] else [])
  {
    NewerThanAll(s, x);
    FrontSorted(s, x);
    StampedAtNone(s, x.updatedAt);
    forall t ensures StampedAt([x] + s, t) == StampedAt(s, t) + (if x.updatedAt == t then [x] else []) {
      StampedAtConcat([x], s, t);
      if x.updatedAt != t {
        assert StampedAt([x], t) == [];
      } else {
        assert StampedAt([x], t) == [x];
      }
    }
  }

  lemma NewerThanAll(s: seq<Summary>, x: Summary)
    requires ByRecency(s) && |s| > 0 && s[0].updatedAt < x.updatedAt
    ensures forall y | y in s :: y.updatedAt < x.updatedAt
  {
  }

  lemma FrontSorted(s: seq<Summary>, x: Summary)
    requires ByRecency(s)
    requires forall y | y in s :: y.updatedAt < x.updatedAt
    ensures ByRecency([x] + s)
  {
  }

  /** `arr.sort((a, b) => b.updatedAt - a.updatedAt)`: a stable sort, newest first. */
  function SortByRecency(s: seq<Summary>): (r: seq<Summary>)
    ensures ByRecency(r)
    ensures multiset(r) == multiset(s)
    ensures forall t :: StampedAt(r, t) == StampedAt(s, t)
  {
    if |s| == 0 then []
    else
      var init := s[..|s| - 1];
      var last := s[|s| - 1];
      assert s == init + [last];
      var sorted := SortByRecency(init);
      assert forall t :: StampedAt(s, t) == StampedAt(init, t) + StampedAt([last], t) by {
        forall t { StampedAtConcat(init, [last], t); }
      }
      InsertByRecency(sorted, last)
  }

  /** `listRooms()`: exactly one summary per room, sorted by `updatedAt` with
      the most recent first; rooms with equal stamps stay in creation order. */
  function ListRooms(reg: Registry): (r: seq<Summary>)
    requires Valid(reg)
    ensures |r| == |reg.rooms|
    ensures ByRecency(r)
    ensures forall k | k in reg.rooms :: Summarize(reg.rooms[k]) in r
    ensures forall s | s in r :: s.id in reg.rooms && s == Summarize(reg.rooms[s.id])
    ensures forall t :: StampedAt(r, t) == StampedAt(SummariesOf(reg.rooms, reg.order), t)
  {
    var unsorted := SummariesOf(reg.rooms, reg.order);
    var r := SortByRecency(unsorted);
    ListRoomsContents(reg, unsorted, r);
    r
  }

  lemma ListRoomsContents(reg: Registry, unsorted: seq<Summary>, r: seq<Summary>)
    requires Valid(reg)
    requires unsorted == SummariesOf(reg.rooms, reg.order)
    requires multiset(r) == multiset(unsorted)
    ensures |r| == |reg.rooms|
    ensures forall k | k in reg.rooms :: Summarize(reg.rooms[k]) in r
    ensures forall s | s in r :: s.id in reg.rooms && s == Summarize(reg.rooms[s.id])
  {
    RegistrySize(reg);
    assert |r| == |unsorted| by {
      assert |multiset(r)| == |multiset(unsorted)|;
    }
    SummariesMembers(reg.rooms, reg.order, unsorted, r);
  }

  lemma SummariesMembers(rooms: map<JsString, Room>, order: seq<JsString>, unsorted: seq<Summary>, r: seq<Summary>)
    requires forall k | k in rooms :: k in order
    requires forall k | k in order :: k in rooms
    requires forall k | k in rooms :: rooms[k].id == k
    requires unsorted == SummariesOf(rooms, order)
    requires multiset(r) == multiset(unsorted)
    ensures forall k | k in rooms :: Summarize(rooms[k]) in r
    ensures forall s | s in r :: s.id in rooms && s == Summarize(rooms[s.id])
  {
    forall k | k in rooms ensures Summarize(rooms[k]) in r {
      var i :| 0 <= i < |order| && order[i] == k;
      assert unsorted[i] in multiset(unsorted);
    }
    forall s | s in r ensures s.id in rooms && s == Summarize(rooms[s.id]) {
      assert s in multiset(unsorted);
      var i :| 0 <= i < |unsorted| && unsorted[i] == s;
      assert order[i] in rooms;
    }
  }

  /** A valid registry lists each key once. */
  lemma RegistrySize(reg: Registry)
    requires Valid(reg)
    ensures |reg.order| == |reg.rooms|
  {
    DistinctCard(reg.order);
    assert reg.rooms.Keys == set x | x in reg.order;
  }
}
