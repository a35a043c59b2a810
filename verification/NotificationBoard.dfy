/**
 The notification model as a board of cards by identifier: posting puts a card up with the deadline asked for,
 dismissing takes one down, and time takes down exactly the cards whose deadline has come. Every operation of the
 model that succeeds does to the board what this says, and one that fails does nothing.
 */
module NotificationBoard {
  import opened Foundation
  import opened Notifications

  /** What a card shows, apart from its identifier. */
  datatype Shown = Shown(
    content: Content, dismissible: bool, generation: nat, first: int, last: int, deadline: Option<int>)

  type Board = map<nat, Shown>

  function Face(c: Card): Shown {
    Shown(c.content, c.dismissible, c.contentGeneration, c.firstPresentedAt, c.lastUpdatedAt, c.expiresAt)
  }

  function BoardOf(cards: seq<Card>): Board {
    map id | id in IdsOf(cards) :: Face(cards[Find(cards, id)])
  }

  /** The default lasts as configured, an explicit timeout as given, both in milliseconds from now. */
  function Deadline(c: Config, timeout: Timeout, now: int): Option<int> {
    match timeout
    case DefaultTimeout(_) => Some(now + 1000000 * c.defaultTimeout)
    case NeverTimeout(_) => None
    case ExplicitTimeout(duration) => Some(now + 1000000 * duration)
  }

  predicate DeadlineCame(s: Shown, now: int) {
    s.deadline.Some? && now >= s.deadline.value
  }

  function Posted(c: Config, b: Board, input: Input, id: nat, generation: nat, now: int): Board {
    var first := if id in b then b[id].first else now;
    b[id := Shown(input.content, input.dismissible, generation, first, now, Deadline(c, input.timeout, now))]
  }

  function AfterTime(b: Board, now: int): Board {
    map id | id in b && !DeadlineCame(b[id], now) :: b[id]
  }

  // ---------------------------------------------------------------- boards of card lists

  lemma {:induction false} BoardAt(cards: seq<Card>, i: nat)
    requires DistinctIds(cards) && i < |cards|
    ensures cards[i].id in BoardOf(cards) && BoardOf(cards)[cards[i].id] == Face(cards[i])
  {
    FoundAt(cards, i);
  }

  lemma {:induction false} FoundAt(cards: seq<Card>, i: nat)
    requires DistinctIds(cards) && i < |cards|
    ensures Find(cards, cards[i].id) == i && cards[i].id in IdsOf(cards)
  {
  }

  lemma {:induction false} OnBoard(cards: seq<Card>, id: nat) returns (i: nat)
    requires DistinctIds(cards) && id in BoardOf(cards)
    ensures i < |cards| && cards[i].id == id && BoardOf(cards)[id] == Face(cards[i])
  {
    i := Find(cards, id);
    var k :| 0 <= k < |cards| && cards[k].id == id;
    FoundAt(cards, k);
  }

  /** Two lists of different cards with the same faces under the same identifiers make the same board. */
  lemma {:induction false} SameBoard(cards: seq<Card>, b: Board)
    requires DistinctIds(cards)
    requires forall i :: 0 <= i < |cards| ==> cards[i].id in b && b[cards[i].id] == Face(cards[i])
    requires forall id :: id in b ==> exists i :: 0 <= i < |cards| && cards[i].id == id
    ensures BoardOf(cards) == b
  {
    forall id ensures id in BoardOf(cards) <==> id in b {
      if id in BoardOf(cards) {
        var i := OnBoard(cards, id);
      }
      if id in b {
        var i :| 0 <= i < |cards| && cards[i].id == id;
        BoardAt(cards, i);
      }
    }
    forall id | id in b ensures BoardOf(cards)[id] == b[id] {
      var i := OnBoard(cards, id);
    }
  }

  // ---------------------------------------------------------------- posting

  lemma {:induction false} GrantedIsDeadline(c: Config, timeout: Timeout, now: int)
    requires ExpiryFor(c, timeout, now).Success?
    ensures ExpiryFor(c, timeout, now).value == Deadline(c, timeout, now)
  {
  }

  lemma {:induction false} ReplacedBoard(cards: seq<Card>, i: nat, card: Card)
    requires DistinctIds(cards) && i < |cards| && card.id == cards[i].id
    ensures DistinctIds(cards[i := card])
    ensures BoardOf(cards[i := card]) == BoardOf(cards)[card.id := Face(card)]
  {
    var more, b := cards[i := card], BoardOf(cards)[card.id := Face(card)];
    forall k | 0 <= k < |more| ensures more[k].id in b && b[more[k].id] == Face(more[k]) {
      BoardAt(cards, k);
    }
    forall id | id in b ensures exists k :: 0 <= k < |more| && more[k].id == id {
      if id == card.id {
        assert more[i].id == id;
      } else {
        var k := OnBoard(cards, id);
        assert more[k].id == id;
      }
    }
    SameBoard(more, b);
  }

  lemma {:induction false} AddedBoard(cards: seq<Card>, card: Card)
    requires DistinctIds(cards) && forall i :: 0 <= i < |cards| ==> cards[i].id != card.id
    ensures DistinctIds(cards + [card])
    ensures BoardOf(cards + [card]) == BoardOf(cards)[card.id := Face(card)]
  {
    var more, b := cards + [card], BoardOf(cards)[card.id := Face(card)];
    forall k | 0 <= k < |more| ensures more[k].id in b && b[more[k].id] == Face(more[k]) {
      if k < |cards| {
        BoardAt(cards, k);
      }
    }
    forall id | id in b ensures exists k :: 0 <= k < |more| && more[k].id == id {
      if id == card.id {
        assert more[|cards|].id == id;
      } else {
        var k := OnBoard(cards, id);
        assert more[k].id == id;
      }
    }
    SameBoard(more, b);
  }

  /**
   A successful upsert posts its card with the deadline asked for: over the card to be replaced, keeping when it
   was first shown, or under the next identifier, which no card has.
   */
  lemma {:induction false} UpsertPosts(c: Config, s: State, input: Input, before: int, now: int)
    requires Good(c, s, before) && Upserted(c, s, input, now).1.Success?
    ensures var (t, r) := Upserted(c, s, input, now);
      var b, id := BoardOf(Cards(s)), r.value.id;
      && BoardOf(Cards(t)) == Posted(c, b, input, id, s.nextGeneration, now)
      && r.value.snapshot == Snapshot(s.nextGeneration, Cards(t))
      && (r.value.replaced <==> input.replacementId.Some?)
      && (if input.replacementId.Some? then id == input.replacementId.value && id in b
          else id == s.nextId && id !in b && t.nextId == Increment(s.nextId))
  {
    var expiry := ExpiryFor(c, input.timeout, now).value;
    GrantedIsDeadline(c, input.timeout, now);
    hide InputFault, ImageTotal, ExpiryFor, Deadline, Find, BoardOf;
    var cards := Cards(s);
    assert DistinctIds(cards);
    if input.replacementId.Some? {
      var i := Find(cards, input.replacementId.value);
      var card := NewCard(input, cards[i].id, s.nextGeneration, cards[i].firstPresentedAt, now, expiry);
      BoardAt(cards, i);
      ReplacedBoard(cards, i, card);
    } else {
      var card := NewCard(input, s.nextId, s.nextGeneration, now, now, expiry);
      assert forall i :: 0 <= i < |cards| ==> cards[i].id < NextOf(s.nextId);
      AddedBoard(cards, card);
      NotOnBoard(cards, s.nextId);
    }
  }

  lemma {:induction false} NotOnBoard(cards: seq<Card>, id: nat)
    requires DistinctIds(cards) && forall i :: 0 <= i < |cards| ==> cards[i].id != id
    ensures id !in BoardOf(cards)
  {
  }

  // ---------------------------------------------------------------- dismissing

  lemma {:induction false} KeptAreDistinct(kept: seq<Card>, cards: seq<Card>, at: seq<nat>)
    requires IsSubsequence(kept, cards, at) && DistinctIds(cards)
    ensures DistinctIds(kept)
  {
    assert forall k :: 0 <= k < |kept| ==> kept[k] == cards[at[k]];
  }

  function Without(cards: seq<Card>, i: nat): (r: seq<Card>)
    requires i < |cards|
    ensures |r| == |cards| - 1
    ensures forall k :: 0 <= k < |r| ==> r[k] == cards[if k < i then k else k + 1]
  {
    cards[..i] + cards[i + 1..]
  }

  lemma {:induction false} WithoutIsOnBoard(cards: seq<Card>, i: nat, k: nat)
    requires DistinctIds(cards) && i < |cards| && k < |cards| - 1
    ensures var card := Without(cards, i)[k];
      card.id in BoardOf(cards) && card.id != cards[i].id && BoardOf(cards)[card.id] == Face(card)
  {
    BoardAt(cards, if k < i then k else k + 1);
    hide BoardOf;
  }

  lemma {:induction false} OtherIsKept(cards: seq<Card>, i: nat, other: nat) returns (k: nat)
    requires DistinctIds(cards) && i < |cards| && other in BoardOf(cards) && other != cards[i].id
    ensures k < |cards| - 1 && Without(cards, i)[k].id == other
  {
    var from := OnBoard(cards, other);
    k := if from < i then from else from - 1;
    hide BoardOf;
  }

  lemma {:induction false} FewerBoard(cards: seq<Card>, i: nat)
    requires DistinctIds(cards) && i < |cards|
    ensures var b := BoardOf(cards);
      BoardOf(Without(cards, i)) == map other | other in b && other != cards[i].id :: b[other]
  {
    var fewer, b := Without(cards, i), BoardOf(cards);
    var at := DismissalIsSubsequence(cards, i);
    KeptAreDistinct(fewer, cards, at);
    var expected := map other | other in b && other != cards[i].id :: b[other];
    hide BoardOf, IsSubsequence, Without, DistinctIds, Face;
    forall k | 0 <= k < |fewer| ensures fewer[k].id in expected && expected[fewer[k].id] == Face(fewer[k]) {
      WithoutIsOnBoard(cards, i, k);
    }
    forall other | other in expected ensures exists k :: 0 <= k < |fewer| && fewer[k].id == other {
      var k := OtherIsKept(cards, i, other);
    }
    SameBoard(fewer, expected);
  }

  /** A successful dismissal takes down the card it names, which shows the content that was expected. */
  lemma {:induction false} DismissalTakesDown(c: Config, s: State, id: nat, expected: nat, before: int)
    requires Good(c, s, before) && Dismissed(s, id, expected).1.Success?
    ensures var t, b := Dismissed(s, id, expected).0, BoardOf(Cards(s));
      && id in b && b[id].generation == expected
      && BoardOf(Cards(t)) == map other | other in b && other != id :: b[other]
  {
    hide InputFault, ImageTotal, BoardOf;
    var i := Find(Cards(s), id);
    assert DistinctIds(Cards(s));
    BoardAt(Cards(s), i);
    FewerBoard(Cards(s), i);
  }

  // ---------------------------------------------------------------- the passing of time

  lemma {:induction false} RetainedAre(cards: seq<Card>, now: int, card: Card)
    ensures card in Retained(cards, now) <==> card in cards && !DeadlineCame(Face(card), now)
  {
    if cards != [] {
      RetainedAre(cards[..|cards| - 1], now, card);
      assert cards == cards[..|cards| - 1] + [cards[|cards| - 1]];
    }
  }

  lemma {:induction false} RemovedAre(cards: seq<Card>, now: int, id: nat)
    ensures id in Removed(cards, now)
        <==> exists i :: 0 <= i < |cards| && cards[i].id == id && DeadlineCame(Face(cards[i]), now)
  {
    if cards != [] {
      var front, last := cards[..|cards| - 1], |cards| - 1;
      RemovedAre(front, now, id);
      assert forall i :: 0 <= i < last ==> front[i] == cards[i];
      if i :| 0 <= i < |cards| && cards[i].id == id && DeadlineCame(Face(cards[i]), now) {
        assert i < last ==> front[i].id == id;
      }
    }
  }

  lemma {:induction false} RetainedBoard(cards: seq<Card>, now: int)
    requires DistinctIds(cards)
    ensures BoardOf(Retained(cards, now)) == AfterTime(BoardOf(cards), now)
  {
    var kept, b := Retained(cards, now), AfterTime(BoardOf(cards), now);
    var at := RetainedIsSubsequence(cards, now);
    KeptAreDistinct(kept, cards, at);
    hide Retained, BoardOf, IsSubsequence, DeadlineCame;
    forall k | 0 <= k < |kept| ensures kept[k].id in b && b[kept[k].id] == Face(kept[k]) {
      RetainedAre(cards, now, kept[k]);
      assert kept[k] in kept;
      var i :| 0 <= i < |cards| && cards[i] == kept[k];
      BoardAt(cards, i);
    }
    forall id | id in b ensures exists k :: 0 <= k < |kept| && kept[k].id == id {
      var i := OnBoard(cards, id);
      RetainedAre(cards, now, cards[i]);
      assert cards[i] in kept;
    }
    SameBoard(kept, b);
  }

  lemma {:induction false} NothingRemoved(cards: seq<Card>, now: int)
    requires DistinctIds(cards) && Removed(cards, now) == []
    ensures AfterTime(BoardOf(cards), now) == BoardOf(cards)
  {
    hide BoardOf, DeadlineCame;
    forall id | id in BoardOf(cards) ensures !DeadlineCame(BoardOf(cards)[id], now) {
      var i := OnBoard(cards, id);
      RemovedAre(cards, now, id);
      hide Removed;
    }
  }

  /**
   When time is advanced, exactly the cards whose deadline has come go down, and they are reported. It fails only
   when some card is due and no generation is left to say so.
   */
  lemma {:induction false} TimeTakesDown(c: Config, s: State, before: int, now: int)
    requires Good(c, s, before)
    ensures var (t, r) := Advanced(s, now);
      var b := BoardOf(Cards(s));
      && (r.Success? ==> BoardOf(Cards(t)) == AfterTime(b, now))
      && (r.Failure? <==> s.nextGeneration == 0 && AfterTime(b, now) != b)
      && (forall id :: id in Removed(Cards(s), now) <==> id in b && DeadlineCame(b[id], now))
  {
    var cards := Cards(s);
    var b := BoardOf(cards);
    hide InputFault, ImageTotal, BoardOf, Retained, DeadlineCame;
    assert DistinctIds(cards);
    RetainedBoard(cards, now);
    if Removed(cards, now) == [] {
      NothingRemoved(cards, now);
    }
    forall id ensures id in Removed(cards, now) <==> id in b && DeadlineCame(b[id], now) {
      RemovedAre(cards, now, id);
      if i :| 0 <= i < |cards| && cards[i].id == id && DeadlineCame(Face(cards[i]), now) {
        BoardAt(cards, i);
      }
      if id in b && DeadlineCame(b[id], now) {
        var i := OnBoard(cards, id);
      }
    }
    if Removed(cards, now) != [] {
      var id := Removed(cards, now)[0];
      assert id in Removed(cards, now);
      assert id !in AfterTime(b, now);
    }
  }

  // ---------------------------------------------------------------- a client that hears the answers

  /** What a client makes of one operation that it asks for and of the answer it gets. */
  function Heard(c: Config, s: State, t: Timed, b: Board): Board {
    match t.operation
    case UpsertCard(input) =>
      var r := Upserted(c, s, input, t.now).1;
      if r.Success? then Posted(c, b, input, r.value.id, r.value.snapshot.generation, t.now) else b
    case DismissCard(id, expected) =>
      if Dismissed(s, id, expected).1.Success? then map other | other in b && other != id :: b[other] else b
    case AdvanceTimeouts => if Advanced(s, t.now).1.Success? then AfterTime(b, t.now) else b
  }

  function HeardAll(c: Config, s: State, ops: seq<Timed>, b: Board): Board
    decreases |ops|
  {
    if ops == [] then b else HeardAll(c, Step(c, s, ops[0]), ops[1..], Heard(c, s, ops[0], b))
  }

  lemma {:induction false} StepIsHeard(c: Config, s: State, t: Timed, before: int)
    requires Good(c, s, before)
    ensures Heard(c, s, t, BoardOf(Cards(s))) == BoardOf(Cards(Step(c, s, t)))
  {
    hide Upserted, Dismissed, Advanced, BoardOf, Good, Posted;
    match t.operation {
      case UpsertCard(input) =>
        if Upserted(c, s, input, t.now).1.Success? {
          UpsertPosts(c, s, input, before, t.now);
        } else {
          FailureIsSilent(c, s, t);
        }
      case DismissCard(id, expected) =>
        if Dismissed(s, id, expected).1.Success? {
          DismissalTakesDown(c, s, id, expected, before);
        } else {
          FailureIsSilent(c, s, t);
        }
      case AdvanceTimeouts =>
        if Advanced(s, t.now).1.Success? {
          TimeTakesDown(c, s, before, t.now);
        } else {
          FailureIsSilent(c, s, t);
        }
    }
  }

  lemma {:induction false} FailureIsSilent(c: Config, s: State, t: Timed)
    ensures !Succeeds(c, s, t) ==> Step(c, s, t) == s
  {
    hide InputFault, ExpiryFor, Placed, Retained, Removed, ImageTotal;
  }

  /** After any run on a monotonic clock such a client knows every card that is up, and what it shows. */
  lemma {:induction false} RunIsHeard(c: Config, s: State, ops: seq<Timed>, from: int)
    requires ValidConfig(c) && Good(c, s, from) && Monotone(ops, from)
    ensures HeardAll(c, s, ops, BoardOf(Cards(s))) == BoardOf(Cards(Run(c, s, ops)))
    decreases |ops|
  {
    hide Good, Step, ValidConfig, BoardOf, Heard;
    if ops != [] {
      StepKeepsGood(c, s, ops[0], from);
      StepIsHeard(c, s, ops[0], from);
      RunIsHeard(c, Step(c, s, ops[0]), ops[1..], ops[0].now);
    }
  }
}
