/**
 The notification model: a mutable owner of cards whose published snapshots must satisfy an independently
 written validator.

 The validator's clock bound is tighter than the bound with which the model grants expiries. Every publication
 passes as long as the clock is a full maximum timeout before its end, and no later bound guarantees it.
 */
module Notifications {
  import opened Foundation
  import Utf8

  const MAXIMUM_CARDS: nat := 32
  const MAXIMUM_SUMMARY_BYTES: nat := 1024
  const MAXIMUM_SUMMARY_CODEPOINTS: nat := 256
  const MAXIMUM_BODY_BYTES: nat := 16384
  const MAXIMUM_BODY_CODEPOINTS: nat := 4096
  const MAXIMUM_NAME_BYTES: nat := 512
  const MAXIMUM_NAME_CODEPOINTS: nat := 128
  const MAXIMUM_ID_BYTES: nat := 255
  const MAXIMUM_ACTIONS: nat := 8
  const MAXIMUM_ACTION_ID_BYTES: nat := 64
  const MAXIMUM_LABEL_BYTES: nat := 512
  const MAXIMUM_LABEL_CODEPOINTS: nat := 128
  const MAXIMUM_ICON_NAME_BYTES: nat := 255
  const MAXIMUM_IMAGE_DIMENSION: nat := 512
  const MAXIMUM_IMAGE_BYTES: nat := 1048576
  const MAXIMUM_SNAPSHOT_IMAGE_BYTES: nat := 8388608
  /** Nanoseconds: a millisecond, twenty-four hours, and the last point of the clock. */
  const MILLISECOND: int := 1000000
  const MAXIMUM_TIMEOUT: int := 86400000 * MILLISECOND
  const MAXIMUM_TIME: int := 0x7FFF_FFFF_FFFF_FFFF

  datatype Urgency = Low | Normal | Critical
  datatype PixelFormat = Rgb8 | Rgba8
  datatype Role = NotificationRole | ButtonRole

  /** Pixels matter only by their number. */
  datatype Visual =
    | NoVisual
    | ThemeIcon(name: string)
    | Image(format: PixelFormat, width: nat, height: nat, rowStride: nat, pixels: nat)

  datatype Action = Action(id: string, caption: string, enabled: bool)

  datatype Content = Content(
    summary: string, body: string, applicationName: Option<string>, applicationId: Option<string>,
    urgency: Urgency, visual: Visual, actions: seq<Action>)

  /** Durations are given in milliseconds. */
  datatype Timeout = DefaultTimeout(duration: int) | NeverTimeout(duration: int) | ExplicitTimeout(duration: int)

  datatype Input = Input(replacementId: Option<nat>, content: Content, timeout: Timeout, dismissible: bool)

  datatype Card = Card(
    id: nat, content: Content, focusable: bool, dismissible: bool, role: Role, contentGeneration: nat,
    firstPresentedAt: int, lastUpdatedAt: int, expiresAt: Option<int>)

  datatype Snapshot = Snapshot(generation: nat, cards: seq<Card>)

  /** How a text is judged: its verdict under a byte limit, a code-point limit and a whitespace rule. */
  type TextRule = (string, nat, nat, bool) -> Utf8.TextStatus

  // ---------------------------------------------------------------- content

  function TextFault(rule: TextRule, text: string, bytes: nat, codepoints: nat, body: bool,
      nonempty: bool): Option<ErrorCode> {
    if nonempty && text == "" then Some(ValidationError)
    else
      match rule(text, bytes, codepoints, body)
      case TextValid => None
      case TextTooLarge => Some(TooLarge)
      case TextInvalidUtf8 => Some(ValidationError)
      case TextUnsafeControl => Some(ValidationError)
  }

  predicate IsIdentifierCharacter(c: char) {
    'a' <= c <= 'z' || 'A' <= c <= 'Z' || '0' <= c <= '9' || c == '.' || c == '_' || c == '-'
  }

  predicate ValidIdentifier(s: string, maximum: nat, allowColon: bool) {
    0 < |s| <= maximum && forall i :: 0 <= i < |s| ==> IsIdentifierCharacter(s[i]) || (allowColon && s[i] == ':')
  }

  function ImageBytes(v: Visual): nat {
    if v.Image? then v.pixels else 0
  }

  function Channels(f: PixelFormat): nat {
    if f == Rgb8 then 3 else 4
  }

  function VisualFault(v: Visual): Option<ErrorCode> {
    match v
    case NoVisual => None
    case ThemeIcon(name) =>
      if !ValidIdentifier(name, MAXIMUM_ICON_NAME_BYTES, false) || name == "." || name == ".." then
        Some(ValidationError)
      else None
    case Image(format, width, height, rowStride, pixels) =>
      if width == 0 || height == 0 || width > MAXIMUM_IMAGE_DIMENSION || height > MAXIMUM_IMAGE_DIMENSION then
        Some(ValidationError)
      else
        var stride := width * Channels(format);
        var bytes := stride * height;
        if rowStride != stride || bytes > MAXIMUM_IMAGE_BYTES || pixels != bytes then
          Some(if bytes > MAXIMUM_IMAGE_BYTES then TooLarge else ValidationError)
        else None
  }

  function ActionsFaultFrom(rule: TextRule, actions: seq<Action>, seen: set<string>): Option<ErrorCode>
    decreases |actions|
  {
    if actions == [] then None
    else if !ValidIdentifier(actions[0].id, MAXIMUM_ACTION_ID_BYTES, true) || actions[0].id in seen then
      Some(ValidationError)
    else
      var caption := TextFault(rule, actions[0].caption, MAXIMUM_LABEL_BYTES, MAXIMUM_LABEL_CODEPOINTS, false, true);
      if caption.Some? then caption else ActionsFaultFrom(rule, actions[1..], seen + {actions[0].id})
  }

  function ActionsFault(rule: TextRule, actions: seq<Action>): Option<ErrorCode> {
    if |actions| > MAXIMUM_ACTIONS then Some(TooLarge) else ActionsFaultFrom(rule, actions, {})
  }

  function TextsFault(rule: TextRule, c: Content): Option<ErrorCode> {
    var summary := TextFault(rule, c.summary, MAXIMUM_SUMMARY_BYTES, MAXIMUM_SUMMARY_CODEPOINTS, false, true);
    var body := TextFault(rule, c.body, MAXIMUM_BODY_BYTES, MAXIMUM_BODY_CODEPOINTS, true, false);
    var name := if c.applicationName.None? then None
                else TextFault(rule, c.applicationName.value, MAXIMUM_NAME_BYTES, MAXIMUM_NAME_CODEPOINTS, false, true);
    if summary.Some? then summary
    else if body.Some? then body
    else if name.Some? then name
    else if c.applicationId.Some? && !ValidIdentifier(c.applicationId.value, MAXIMUM_ID_BYTES, false) then
      Some(ValidationError)
    else None
  }

  /** The checks of an input. */
  function InputFault(rule: TextRule, c: Content): Option<ErrorCode> {
    var texts, visual := TextsFault(rule, c), VisualFault(c.visual);
    if texts.Some? then texts else if visual.Some? then visual else ActionsFault(rule, c.actions)
  }

  // ---------------------------------------------------------------- the validator

  /** The time part of a published card as the validator demands it, in its own terms. */
  predicate ExpiryInvalid(c: Card) {
    c.expiresAt.Some? &&
    (c.expiresAt.value <= c.lastUpdatedAt || c.lastUpdatedAt > MAXIMUM_TIME - MAXIMUM_TIMEOUT
     || c.expiresAt.value > c.lastUpdatedAt + MAXIMUM_TIMEOUT)
  }

  function CardFault(rule: TextRule, c: Card, generation: nat): Option<ErrorCode> {
    var texts, visual := TextsFault(rule, c.content), VisualFault(c.content.visual);
    if texts.Some? then texts
    else if c.id == 0 || !c.focusable || c.role != NotificationRole || c.contentGeneration > generation
            || c.firstPresentedAt > c.lastUpdatedAt || ExpiryInvalid(c) then Some(ValidationError)
    else if visual.Some? then visual
    else ActionsFault(rule, c.content.actions)
  }

  function ImageTotal(cards: seq<Card>): nat {
    if cards == [] then 0 else ImageTotal(cards[..|cards| - 1]) + ImageBytes(cards[|cards| - 1].content.visual)
  }

  predicate DistinctIds(cards: seq<Card>) {
    forall i, j :: 0 <= i < j < |cards| ==> cards[i].id != cards[j].id
  }

  predicate ValidSnapshot(rule: TextRule, s: Snapshot) {
    && |s.cards| <= MAXIMUM_CARDS && DistinctIds(s.cards)
    && (forall i :: 0 <= i < |s.cards| ==> CardFault(rule, s.cards[i], s.generation).None?)
    && ImageTotal(s.cards) <= MAXIMUM_SNAPSHOT_IMAGE_BYTES
  }

  lemma {:induction false} ImagesGrow(cards: seq<Card>, n: nat)
    requires n <= |cards|
    ensures ImageTotal(cards[..n]) <= ImageTotal(cards)
    decreases |cards| - n
  {
    if n == |cards| {
      assert cards[..n] == cards;
    } else {
      ImagesOfMore(cards, n);
      ImagesGrow(cards, n + 1);
    }
  }

  lemma {:induction false} ImagesOfMore(cards: seq<Card>, n: nat)
    requires n < |cards|
    ensures ImageTotal(cards[..n + 1]) == ImageTotal(cards[..n]) + ImageBytes(cards[n].content.visual)
  {
    assert cards[..n + 1][..n] == cards[..n];
  }

  /** The running total of image bytes, which never passes its limit. */
  method ImagesFit(cards: seq<Card>) returns (fit: bool)
    ensures fit <==> ImageTotal(cards) <= MAXIMUM_SNAPSHOT_IMAGE_BYTES
  {
    var aggregate: nat := 0;
    for i := 0 to |cards|
      invariant aggregate == ImageTotal(cards[..i]) <= MAXIMUM_SNAPSHOT_IMAGE_BYTES
    {
      ImagesOfMore(cards, i);
      ImagesGrow(cards, i + 1);
      var bytes := ImageBytes(cards[i].content.visual);
      if bytes > MAXIMUM_SNAPSHOT_IMAGE_BYTES - aggregate {
        return false;
      }
      aggregate := aggregate + bytes;
    }
    assert cards[..|cards|] == cards;
    return true;
  }

  predicate ValidUpTo(rule: TextRule, s: Snapshot, n: nat)
    requires n <= |s.cards|
  {
    && DistinctIds(s.cards[..n]) && ImageTotal(s.cards[..n]) <= MAXIMUM_SNAPSHOT_IMAGE_BYTES
    && forall k :: 0 <= k < n ==> CardFault(rule, s.cards[k], s.generation).None?
  }

  function IdsOf(cards: seq<Card>): set<nat> {
    set k | 0 <= k < |cards| :: cards[k].id
  }

  lemma {:induction false} ValidOneMore(rule: TextRule, s: Snapshot, n: nat)
    requires n < |s.cards| && ValidUpTo(rule, s, n)
    ensures var card, total := s.cards[n], ImageTotal(s.cards[..n]) + ImageBytes(s.cards[n].content.visual);
      && IdsOf(s.cards[..n + 1]) == IdsOf(s.cards[..n]) + {card.id}
      && ImageTotal(s.cards[..n + 1]) == total
      && (ValidUpTo(rule, s, n + 1) <==>
            card.id !in IdsOf(s.cards[..n]) && CardFault(rule, card, s.generation).None?
              && total <= MAXIMUM_SNAPSHOT_IMAGE_BYTES)
  {
    ImagesOfMore(s.cards, n);
    hide CardFault, ImageTotal, ImageBytes;
    assert s.cards[..n + 1] == s.cards[..n] + [s.cards[n]];
    DistinctOneMore(s.cards[..n], s.cards[n]);
    hide DistinctIds;
  }

  lemma {:induction false} DistinctOneMore(cards: seq<Card>, card: Card)
    ensures IdsOf(cards + [card]) == IdsOf(cards) + {card.id}
    ensures DistinctIds(cards + [card]) <==> DistinctIds(cards) && card.id !in IdsOf(cards)
  {
    var more := cards + [card];
    assert forall k :: 0 <= k < |cards| ==> more[k] == cards[k];
    if DistinctIds(more) {
      assert forall k :: 0 <= k < |cards| ==> more[k].id != more[|cards|].id;
    }
    assert more[|cards|].id == card.id;
    forall id ensures id in IdsOf(more) <==> id in IdsOf(cards) + {card.id} {
      if k :| 0 <= k < |cards| && cards[k].id == id {
        assert more[k].id == id;
      }
    }
  }

  lemma {:induction false} ValidPrefix(rule: TextRule, s: Snapshot, n: nat)
    requires n <= |s.cards| && |s.cards| <= MAXIMUM_CARDS && ValidSnapshot(rule, s)
    ensures ValidUpTo(rule, s, n)
  {
    ImagesGrow(s.cards, n);
    hide CardFault, ImageTotal;
    assert forall k :: 0 <= k < n ==> s.cards[..n][k] == s.cards[k];
  }

  method ValidateSnapshot(rule: TextRule, s: Snapshot) returns (fault: Option<ErrorCode>)
    ensures fault.None? <==> ValidSnapshot(rule, s)
  {
    if |s.cards| > MAXIMUM_CARDS {
      return Some(TooLarge);
    }
    var identifiers: set<nat> := {};
    var aggregate: nat := 0;
    assert s.cards[..0] == [] && s.cards[..|s.cards|] == s.cards;
    hide CardFault, ImageBytes, DistinctIds, IdsOf;
    assert ValidSnapshot(rule, s) <==> ValidUpTo(rule, s, |s.cards|);
    assert ValidUpTo(rule, s, 0) && IdsOf(s.cards[..0]) == {} && ImageTotal(s.cards[..0]) == 0 by {
      NothingInvalid(rule, s);
    }
    hide ValidUpTo, ImageTotal;
    for i := 0 to |s.cards|
      invariant ValidUpTo(rule, s, i) && identifiers == IdsOf(s.cards[..i])
      invariant aggregate == ImageTotal(s.cards[..i]) <= MAXIMUM_SNAPSHOT_IMAGE_BYTES
    {
      var card := s.cards[i];
      ValidOneMore(rule, s, i);
      if ValidSnapshot(rule, s) {
        ValidPrefix(rule, s, i + 1);
      }
      if card.id in identifiers {
        return Some(ValidationError);
      }
      identifiers := identifiers + {card.id};
      var invalid := CardFault(rule, card, s.generation);
      if invalid.Some? {
        return invalid;
      }
      var bytes := ImageBytes(card.content.visual);
      if bytes > MAXIMUM_SNAPSHOT_IMAGE_BYTES - aggregate {
        return Some(TooLarge);
      }
      aggregate := aggregate + bytes;
    }
    return None;
  }

  lemma {:induction false} NothingInvalid(rule: TextRule, s: Snapshot)
    ensures ValidUpTo(rule, s, 0) && IdsOf(s.cards[..0]) == {} && ImageTotal(s.cards[..0]) == 0
  {
  }

  // ---------------------------------------------------------------- the model, on values

  datatype Config = Config(rule: TextRule, defaultTimeout: int)

  /** The configured default lasts a positive time and at most twenty-four hours; it is given in milliseconds. */
  predicate ValidConfig(c: Config) {
    0 < c.defaultTimeout && c.defaultTimeout * MILLISECOND <= MAXIMUM_TIMEOUT
  }

  function ExpiryAt(now: int, duration: int): Result<Option<int>> {
    var length := duration * MILLISECOND;
    if length <= 0 || now > MAXIMUM_TIME - length then Failure(TooLarge) else Success(Some(now + length))
  }

  function ExpiryFor(c: Config, timeout: Timeout, now: int): Result<Option<int>> {
    match timeout
    case DefaultTimeout(duration) => if duration != 0 then Failure(ValidationError) else ExpiryAt(now, c.defaultTimeout)
    case NeverTimeout(duration) => if duration != 0 then Failure(ValidationError) else Success(None)
    case ExplicitTimeout(duration) =>
      if duration <= 0 || duration * MILLISECOND > MAXIMUM_TIMEOUT then Failure(ValidationError)
      else ExpiryAt(now, duration)
  }

  /** A counter that has run out is zero. */
  function Increment(n: nat): nat {
    if n == U64_MAX then 0 else n + 1
  }

  datatype State = State(nextId: nat, nextGeneration: nat, current: Option<Snapshot>)

  function Cards(s: State): seq<Card> {
    if s.current.None? then [] else s.current.value.cards
  }

  /** The first card with an identifier, or the number of cards. */
  function Find(cards: seq<Card>, id: nat): (i: nat)
    ensures i <= |cards|
    ensures i < |cards| ==> cards[i].id == id
    ensures forall k :: 0 <= k < i ==> cards[k].id != id
  {
    if cards == [] || cards[0].id == id then 0 else 1 + Find(cards[1..], id)
  }

  datatype Outcome = Outcome(snapshot: Snapshot, id: nat, replaced: bool)

  function NewCard(input: Input, id: nat, generation: nat, first: int, now: int, expiry: Option<int>): Card {
    Card(id, input.content, true, input.dismissible, NotificationRole, generation, first, now, expiry)
  }

  /** The cards after an upsert that may still exceed the image limit, and the identifier used. */
  function Placed(s: State, input: Input, generation: nat, now: int, expiry: Option<int>)
    : Result<(seq<Card>, nat, bool)> {
    var cards := Cards(s);
    match input.replacementId
    case Some(id) =>
      var i := Find(cards, id);
      if i == |cards| then Failure(NotFound)
      else Success((cards[i := NewCard(input, id, generation, cards[i].firstPresentedAt, now, expiry)], id, true))
    case None =>
      if |cards| >= MAXIMUM_CARDS then Failure(TooLarge)
      else if s.nextId == 0 then Failure(TooLarge)
      else Success((cards + [NewCard(input, s.nextId, generation, now, now, expiry)], s.nextId, false))
  }

  function Upserted(c: Config, s: State, input: Input, now: int): (State, Result<Outcome>) {
    var fault := InputFault(c.rule, input.content);
    if fault.Some? then (s, Failure(fault.value))
    else if s.nextGeneration == 0 then (s, Failure(TooLarge))
    else
      match ExpiryFor(c, input.timeout, now)
      case Failure(e) => (s, Failure(e))
      case Success(expiry) =>
        match Placed(s, input, s.nextGeneration, now, expiry)
        case Failure(e) => (s, Failure(e))
        case Success((cards, id, replaced)) =>
          if ImageTotal(cards) > MAXIMUM_SNAPSHOT_IMAGE_BYTES then (s, Failure(TooLarge))
          else
            var snapshot := Snapshot(s.nextGeneration, cards);
            (State(if replaced then s.nextId else Increment(s.nextId), Increment(s.nextGeneration), Some(snapshot)),
             Success(Outcome(snapshot, id, replaced)))
  }

  function Dismissed(s: State, id: nat, expected: nat): (State, Result<Snapshot>) {
    var cards := Cards(s);
    var i := Find(cards, id);
    if i == |cards| then (s, Failure(NotFound))
    else if cards[i].contentGeneration != expected then (s, Failure(Cancelled))
    else if s.nextGeneration == 0 then (s, Failure(TooLarge))
    else
      var snapshot := Snapshot(s.nextGeneration, cards[..i] + cards[i + 1..]);
      (State(s.nextId, Increment(s.nextGeneration), Some(snapshot)), Success(snapshot))
  }

  predicate Expired(c: Card, now: int) {
    c.expiresAt.Some? && c.expiresAt.value <= now
  }

  function Retained(cards: seq<Card>, now: int): seq<Card> {
    if cards == [] then []
    else Retained(cards[..|cards| - 1], now) + if Expired(cards[|cards| - 1], now) then [] else [cards[|cards| - 1]]
  }

  function Removed(cards: seq<Card>, now: int): seq<nat> {
    if cards == [] then []
    else Removed(cards[..|cards| - 1], now) + if Expired(cards[|cards| - 1], now) then [cards[|cards| - 1].id] else []
  }

  function Advanced(s: State, now: int): (State, Result<Option<Snapshot>>) {
    if s.current.None? then (s, Success(None))
    else if Removed(Cards(s), now) == [] then (s, Success(s.current))
    else if s.nextGeneration == 0 then (s, Failure(TooLarge))
    else
      var snapshot := Snapshot(s.nextGeneration, Retained(Cards(s), now));
      (State(s.nextId, Increment(s.nextGeneration), Some(snapshot)), Success(Some(snapshot)))
  }

  // ---------------------------------------------------------------- the model of the source

  class NotificationModel {
    const config: Config
    var nextId: nat
    var nextGeneration: nat
    var current: Option<Snapshot>

    ghost function Abstract(): State
      reads this
    {
      State(nextId, nextGeneration, current)
    }

    constructor (config: Config)
      requires ValidConfig(config)
      ensures this.config == config && Abstract() == State(1, 1, None)
    {
      this.config := config;
      nextId, nextGeneration, current := 1, 1, None;
    }

    method Publish(cards: seq<Card>) returns (snapshot: Snapshot)
      modifies `nextGeneration, `current
      ensures snapshot == Snapshot(old(nextGeneration), cards)
      ensures nextGeneration == Increment(old(nextGeneration)) && current == Some(snapshot)
    {
      snapshot := Snapshot(nextGeneration, cards);
      nextGeneration := Increment(nextGeneration);
      current := Some(snapshot);
    }

    method Upsert(input: Input, now: int) returns (r: Result<Outcome>)
      modifies this
      ensures (Abstract(), r) == Upserted(config, old(Abstract()), input, now)
    {
      hide InputFault, ExpiryFor, ImageTotal, Find;
      var fault := InputFault(config.rule, input.content);
      if fault.Some? {
        return Failure(fault.value);
      }
      if nextGeneration == 0 {
        return Failure(TooLarge);
      }
      var expiry := ExpiryFor(config, input.timeout, now);
      if expiry.Failure? {
        return Failure(expiry.error);
      }
      var cards := if current.None? then [] else current.value.cards;
      var id: nat := 0;
      var replaced := false;
      if input.replacementId.Some? {
        var existing := Find(cards, input.replacementId.value);
        if existing == |cards| {
          return Failure(NotFound);
        }
        id := cards[existing].id;
        cards := cards[existing :=
          NewCard(input, id, nextGeneration, cards[existing].firstPresentedAt, now, expiry.value)];
        replaced := true;
      } else {
        if |cards| >= MAXIMUM_CARDS {
          return Failure(TooLarge);
        }
        if nextId == 0 {
          return Failure(TooLarge);
        }
        id := nextId;
        cards := cards + [NewCard(input, id, nextGeneration, now, now, expiry.value)];
      }
      var fit := ImagesFit(cards);
      if !fit {
        return Failure(TooLarge);
      }
      if !replaced {
        nextId := Increment(nextId);
      }
      var snapshot := Publish(cards);
      return Success(Outcome(snapshot, id, replaced));
    }

    method Dismiss(id: nat, expectedContentGeneration: nat) returns (r: Result<Snapshot>)
      modifies this
      ensures (Abstract(), r) == Dismissed(old(Abstract()), id, expectedContentGeneration)
    {
      if current.None? {
        return Failure(NotFound);
      }
      var cards := current.value.cards;
      var selected := Find(cards, id);
      if selected == |cards| {
        return Failure(NotFound);
      }
      if cards[selected].contentGeneration != expectedContentGeneration {
        return Failure(Cancelled);
      }
      if nextGeneration == 0 {
        return Failure(TooLarge);
      }
      var snapshot := Publish(cards[..selected] + cards[selected + 1..]);
      return Success(snapshot);
    }

    method AdvanceTimeouts(now: int) returns (r: Result<Option<Snapshot>>, removed: seq<nat>)
      modifies this
      ensures (Abstract(), r) == Advanced(old(Abstract()), now)
      ensures r.Success? ==> removed == Removed(Cards(old(Abstract())), now)
    {
      removed := [];
      if current.None? {
        return Success(None), removed;
      }
      var cards, retained := current.value.cards, [];
      hide Expired;
      for i := 0 to |cards|
        invariant removed == Removed(cards[..i], now) && retained == Retained(cards[..i], now)
      {
        assert cards[..i + 1][..i] == cards[..i];
        if Expired(cards[i], now) {
          removed := removed + [cards[i].id];
        } else {
          retained := retained + [cards[i]];
        }
      }
      assert cards[..|cards|] == cards;
      if removed == [] {
        return Success(current), removed;
      }
      if nextGeneration == 0 {
        return Failure(TooLarge), removed;
      }
      var snapshot := Publish(retained);
      return Success(Some(snapshot)), removed;
    }
  }

  // ---------------------------------------------------------------- runs

  datatype Operation = UpsertCard(input: Input) | DismissCard(id: nat, expected: nat) | AdvanceTimeouts

  datatype Timed = Timed(operation: Operation, now: int)

  function Step(c: Config, s: State, t: Timed): State {
    match t.operation
    case UpsertCard(input) => Upserted(c, s, input, t.now).0
    case DismissCard(id, expected) => Dismissed(s, id, expected).0
    case AdvanceTimeouts => Advanced(s, t.now).0
  }

  predicate Succeeds(c: Config, s: State, t: Timed) {
    match t.operation
    case UpsertCard(input) => Upserted(c, s, input, t.now).1.Success?
    case DismissCard(id, expected) => Dismissed(s, id, expected).1.Success?
    case AdvanceTimeouts => Advanced(s, t.now).1.Success?
  }

  function Run(c: Config, s: State, ops: seq<Timed>): State
    decreases |ops|
  {
    if ops == [] then s else Run(c, Step(c, s, ops[0]), ops[1..])
  }

  /** The clock moves forward and stays within its range. */
  predicate Monotone(ops: seq<Timed>, from: int)
    decreases |ops|
  {
    ops == [] || (from <= ops[0].now <= MAXIMUM_TIME && Monotone(ops[1..], ops[0].now))
  }

  /** The time of the last operation, or of the start. */
  function LastTime(ops: seq<Timed>, from: int): int {
    if ops == [] then from else ops[|ops| - 1].now
  }

  // ---------------------------------------------------------------- what every run keeps

  /** What the model guarantees of a card, whatever the clock. */
  predicate GoodCard(rule: TextRule, c: Card, generation: nat, now: int) {
    && InputFault(rule, c.content).None? && c.id != 0 && c.focusable && c.role == NotificationRole
    && c.contentGeneration <= generation && c.firstPresentedAt <= c.lastUpdatedAt <= now
    && (c.expiresAt.Some? ==> c.lastUpdatedAt < c.expiresAt.value <= c.lastUpdatedAt + MAXIMUM_TIMEOUT)
  }

  /** The next identifier; a counter that has run out has used them all. */
  function NextOf(n: nat): nat {
    if n == 0 then U64_MAX + 1 else n
  }

  predicate GoodCards(rule: TextRule, cards: seq<Card>, generation: nat, nextId: nat, now: int) {
    && |cards| <= MAXIMUM_CARDS && DistinctIds(cards) && ImageTotal(cards) <= MAXIMUM_SNAPSHOT_IMAGE_BYTES
    && forall i :: 0 <= i < |cards| ==> GoodCard(rule, cards[i], generation, now) && cards[i].id < NextOf(nextId)
  }

  predicate Good(c: Config, s: State, now: int) {
    && s.nextId <= U64_MAX && s.nextGeneration <= U64_MAX
    && (s.current.None? ==> s.nextGeneration == 1)
    && (s.current.Some? ==>
          && s.current.value.generation + 1 == NextOf(s.nextGeneration)
          && GoodCards(c.rule, s.current.value.cards, s.current.value.generation, s.nextId, now))
  }

  lemma {:induction false} LaterIsGood(rule: TextRule, cards: seq<Card>, generation: nat, nextId: nat, before: int,
      later: nat, now: int, next: nat)
    requires GoodCards(rule, cards, generation, nextId, before) && generation <= later && before <= now
    requires NextOf(nextId) <= NextOf(next)
    ensures GoodCards(rule, cards, later, next, now)
  {
    hide InputFault, ImageTotal;
  }

  lemma {:induction false} GrantedExpiry(c: Config, timeout: Timeout, now: int)
    requires ValidConfig(c) && ExpiryFor(c, timeout, now).Success? && ExpiryFor(c, timeout, now).value.Some?
    ensures now < ExpiryFor(c, timeout, now).value.value <= now + MAXIMUM_TIMEOUT
    ensures ExpiryFor(c, timeout, now).value.value <= MAXIMUM_TIME
  {
  }

  lemma {:induction false} ReplacedIsGood(rule: TextRule, cards: seq<Card>, i: nat, card: Card, generation: nat,
      nextId: nat, now: int)
    requires GoodCards(rule, cards, generation, nextId, now) && i < |cards| && card.id == cards[i].id
    requires GoodCard(rule, card, generation, now)
    requires ImageTotal(cards[i := card]) <= MAXIMUM_SNAPSHOT_IMAGE_BYTES
    ensures GoodCards(rule, cards[i := card], generation, nextId, now)
  {
    hide GoodCard, ImageTotal;
  }

  lemma {:induction false} AddedIsGood(rule: TextRule, cards: seq<Card>, card: Card, generation: nat, nextId: nat,
      now: int)
    requires GoodCards(rule, cards, generation, nextId, now) && |cards| < MAXIMUM_CARDS
    requires GoodCard(rule, card, generation, now) && nextId != 0 && card.id == nextId <= U64_MAX
    requires ImageTotal(cards + [card]) <= MAXIMUM_SNAPSHOT_IMAGE_BYTES
    ensures GoodCards(rule, cards + [card], generation, Increment(nextId), now)
  {
    hide GoodCard, ImageTotal;
  }

  lemma {:induction false} GrantedCardIsGood(c: Config, input: Input, id: nat, generation: nat, first: int, now: int,
      expiry: Option<int>)
    requires ValidConfig(c) && InputFault(c.rule, input.content).None?
    requires ExpiryFor(c, input.timeout, now) == Success(expiry)
    requires id != 0 && first <= now
    ensures GoodCard(c.rule, NewCard(input, id, generation, first, now, expiry), generation, now)
  {
    if expiry.Some? {
      GrantedExpiry(c, input.timeout, now);
    }
    hide InputFault, ExpiryFor;
  }

  lemma {:induction false} PlacedIsGood(c: Config, s: State, input: Input, now: int, expiry: Option<int>)
    requires ValidConfig(c) && InputFault(c.rule, input.content).None?
    requires ExpiryFor(c, input.timeout, now) == Success(expiry)
    requires s.nextGeneration != 0 && s.nextId <= U64_MAX
    requires GoodCards(c.rule, Cards(s), s.nextGeneration, s.nextId, now)
    ensures var r := Placed(s, input, s.nextGeneration, now, expiry);
      r.Success? && ImageTotal(r.value.0) <= MAXIMUM_SNAPSHOT_IMAGE_BYTES ==>
        GoodCards(c.rule, r.value.0, s.nextGeneration, if r.value.2 then s.nextId else Increment(s.nextId), now)
  {
    hide InputFault, ExpiryFor, ImageTotal, DistinctIds, NewCard;
    var cards, generation := Cards(s), s.nextGeneration;
    var r := Placed(s, input, generation, now, expiry);
    if r.Success? && ImageTotal(r.value.0) <= MAXIMUM_SNAPSHOT_IMAGE_BYTES {
      if input.replacementId.Some? {
        var i := Find(cards, input.replacementId.value);
        assert GoodCard(c.rule, cards[i], generation, now);
        var card := NewCard(input, cards[i].id, generation, cards[i].firstPresentedAt, now, expiry);
        GrantedCardIsGood(c, input, cards[i].id, generation, cards[i].firstPresentedAt, now, expiry);
        IdOfNewCard(input, cards[i].id, generation, cards[i].firstPresentedAt, now, expiry);
        hide GoodCard;
        ReplacedIsGood(c.rule, cards, i, card, generation, s.nextId, now);
      } else {
        GrantedCardIsGood(c, input, s.nextId, generation, now, now, expiry);
        IdOfNewCard(input, s.nextId, generation, now, now, expiry);
        hide GoodCard;
        AddedIsGood(c.rule, cards, NewCard(input, s.nextId, generation, now, now, expiry), generation, s.nextId, now);
      }
      hide GoodCards;
    }
  }

  lemma {:induction false} IdOfNewCard(input: Input, id: nat, generation: nat, first: int, now: int,
      expiry: Option<int>)
    ensures NewCard(input, id, generation, first, now, expiry).id == id
  {
  }

  lemma {:induction false} UpsertKeepsGood(c: Config, s: State, input: Input, before: int, now: int)
    requires ValidConfig(c) && Good(c, s, before) && before <= now
    ensures Good(c, Upserted(c, s, input, now).0, now)
  {
    NoImages();
    if s.current.Some? {
      var held := s.current.value;
      LaterIsGood(c.rule, held.cards, held.generation, s.nextId, before, held.generation, now, s.nextId);
      if s.nextGeneration != 0 {
        LaterIsGood(c.rule, held.cards, held.generation, s.nextId, before, s.nextGeneration, now, s.nextId);
      }
    }
    var expiry := ExpiryFor(c, input.timeout, now);
    if InputFault(c.rule, input.content).None? && s.nextGeneration != 0 && expiry.Success? {
      PlacedIsGood(c, s, input, now, expiry.value);
    }
    hide InputFault, ExpiryFor, ImageTotal, Placed, GoodCards;
  }

  lemma {:induction false} NoImages()
    ensures ImageTotal([]) == 0
  {
  }

  predicate IsSubsequence(kept: seq<Card>, cards: seq<Card>, at: seq<nat>) {
    && |at| == |kept| && (forall k :: 0 <= k < |at| ==> at[k] < |cards| && kept[k] == cards[at[k]])
    && forall j, k :: 0 <= j < k < |at| ==> at[j] < at[k]
  }

  /** Fewer cards in the same order are as good. */
  lemma {:induction false} FewerImages(kept: seq<Card>, cards: seq<Card>, at: seq<nat>)
    requires IsSubsequence(kept, cards, at)
    ensures ImageTotal(kept) <= ImageTotal(cards)
    decreases |kept|
  {
    if kept != [] {
      var n := |kept| - 1;
      var last := at[n];
      FewerImages(kept[..n], cards[..last], at[..n]);
      ImagesOfMore(cards, last);
      ImagesGrow(cards, last + 1);
    }
  }

  lemma {:induction false} FewerIsGood(rule: TextRule, kept: seq<Card>, cards: seq<Card>, at: seq<nat>,
      generation: nat, nextId: nat, now: int)
    requires GoodCards(rule, cards, generation, nextId, now) && IsSubsequence(kept, cards, at)
    ensures GoodCards(rule, kept, generation, nextId, now)
  {
    FewerImages(kept, cards, at);
    IncreasingIsBounded(at, |cards|);
    hide GoodCard, ImageTotal;
  }

  lemma {:induction false} IncreasingIsBounded(at: seq<nat>, n: nat)
    requires forall k :: 0 <= k < |at| ==> at[k] < n
    requires forall j, k :: 0 <= j < k < |at| ==> at[j] < at[k]
    ensures |at| <= n
    decreases |at|
  {
    if at != [] {
      IncreasingIsBounded(at[..|at| - 1], at[|at| - 1]);
    }
  }

  lemma {:induction false} RetainedIsSubsequence(cards: seq<Card>, now: int) returns (at: seq<nat>)
    ensures IsSubsequence(Retained(cards, now), cards, at)
  {
    if cards == [] {
      at := [];
    } else {
      var front, last := cards[..|cards| - 1], |cards| - 1;
      var before := RetainedIsSubsequence(front, now);
      assert cards == front + [cards[last]];
      if Expired(cards[last], now) {
        at := before;
        assert Retained(cards, now) == Retained(front, now);
        hide Retained, Expired;
        assert forall k :: 0 <= k < |at| ==> front[at[k]] == cards[at[k]];
      } else {
        at := before + [last];
        assert Retained(cards, now) == Retained(front, now) + [cards[last]];
        hide Retained, Expired;
        assert forall k :: 0 <= k < |before| ==> front[before[k]] == cards[before[k]];
      }
    }
  }

  lemma {:induction false} DismissalIsSubsequence(cards: seq<Card>, i: nat) returns (at: seq<nat>)
    requires i < |cards|
    ensures IsSubsequence(cards[..i] + cards[i + 1..], cards, at)
  {
    at := seq(|cards| - 1, k requires 0 <= k < |cards| - 1 => if k < i then k else k + 1);
  }

  lemma {:induction false} FewerKeepsGood(c: Config, s: State, kept: seq<Card>, at: seq<nat>, before: int, now: int)
    requires Good(c, s, before) && before <= now && s.current.Some? && s.nextGeneration != 0
    requires IsSubsequence(kept, Cards(s), at)
    ensures Good(c, State(s.nextId, Increment(s.nextGeneration), Some(Snapshot(s.nextGeneration, kept))), now)
  {
    var held := s.current.value;
    hide IsSubsequence;
    FewerIsGood(c.rule, kept, held.cards, at, held.generation, s.nextId, before);
    LaterIsGood(c.rule, kept, held.generation, s.nextId, before, s.nextGeneration, now, s.nextId);
    hide GoodCards;
  }

  lemma {:induction false} StepKeepsGood(c: Config, s: State, t: Timed, before: int)
    requires ValidConfig(c) && Good(c, s, before) && before <= t.now
    ensures Good(c, Step(c, s, t), t.now)
  {
    if s.current.Some? {
      var held := s.current.value;
      LaterIsGood(c.rule, held.cards, held.generation, s.nextId, before, held.generation, t.now, s.nextId);
    }
    match t.operation {
      case UpsertCard(input) => UpsertKeepsGood(c, s, input, before, t.now);
      case DismissCard(id, expected) =>
        if s.current.Some? && Dismissed(s, id, expected).1.Success? {
          var at := DismissalIsSubsequence(Cards(s), Find(Cards(s), id));
          FewerKeepsGood(c, s, Dismissed(s, id, expected).1.value.cards, at, before, t.now);
        }
      case AdvanceTimeouts =>
        if s.current.Some? && s.nextGeneration != 0 {
          var at := RetainedIsSubsequence(Cards(s), t.now);
          FewerKeepsGood(c, s, Retained(Cards(s), t.now), at, before, t.now);
        }
    }
    hide GoodCards, Retained, Removed;
  }

  lemma {:induction false} RunKeepsGood(c: Config, s: State, ops: seq<Timed>, from: int)
    requires ValidConfig(c) && Good(c, s, from) && Monotone(ops, from)
    ensures Good(c, Run(c, s, ops), LastTime(ops, from))
    decreases |ops|
  {
    hide Good, Step, ValidConfig;
    if ops != [] {
      StepKeepsGood(c, s, ops[0], from);
      RunKeepsGood(c, Step(c, s, ops[0]), ops[1..], ops[0].now);
    }
  }

  lemma {:induction false} PrefixIsMonotone(ops: seq<Timed>, from: int, n: nat)
    requires n <= |ops| && Monotone(ops, from)
    ensures Monotone(ops[..n], from) && from <= LastTime(ops[..n], from) <= LastTime(ops, from)
    decreases |ops|
  {
    if ops != [] {
      PrefixIsMonotone(ops[1..], ops[0].now, if n == 0 then 0 else n - 1);
      if n > 0 {
        assert ops[..n][1..] == ops[1..][..n - 1];
      }
    }
  }

  // ---------------------------------------------------------------- when the validator agrees

  /** No card that expires was updated in the last maximum timeout of the clock. */
  predicate EarlyEnough(s: Snapshot) {
    forall i :: 0 <= i < |s.cards| && s.cards[i].expiresAt.Some? ==>
      s.cards[i].lastUpdatedAt <= MAXIMUM_TIME - MAXIMUM_TIMEOUT
  }

  lemma {:induction false} GoodCardIsValid(rule: TextRule, c: Card, generation: nat, now: int)
    requires GoodCard(rule, c, generation, now)
    ensures CardFault(rule, c, generation).None?
        <==> (c.expiresAt.Some? ==> c.lastUpdatedAt <= MAXIMUM_TIME - MAXIMUM_TIMEOUT)
  {
    hide TextsFault, VisualFault, ActionsFault;
  }

  /** A good snapshot passes the validator exactly when none of its expiring cards was updated too late. */
  lemma {:induction false} GoodIsValidExactly(c: Config, s: State, now: int)
    requires Good(c, s, now) && s.current.Some?
    ensures ValidSnapshot(c.rule, s.current.value) <==> EarlyEnough(s.current.value)
  {
    var held := s.current.value;
    forall i | 0 <= i < |held.cards|
      ensures CardFault(c.rule, held.cards[i], held.generation).None?
          <==> (held.cards[i].expiresAt.Some? ==> held.cards[i].lastUpdatedAt <= MAXIMUM_TIME - MAXIMUM_TIMEOUT) {
      GoodCardIsValid(c.rule, held.cards[i], held.generation, now);
    }
    hide CardFault, GoodCard, ImageTotal;
  }

  /**
   Under any sequence of operations with a monotonic clock that ends a maximum timeout before its own end,
   every snapshot published on the way passes the validator.
   */
  lemma {:induction false} EveryPublicationIsValid(c: Config, ops: seq<Timed>, from: int, n: nat)
    requires ValidConfig(c) && Monotone(ops, from) && LastTime(ops, from) <= MAXIMUM_TIME - MAXIMUM_TIMEOUT
    requires n <= |ops|
    ensures var s := Run(c, State(1, 1, None), ops[..n]);
      s.current.Some? ==> ValidSnapshot(c.rule, s.current.value)
  {
    PrefixIsMonotone(ops, from, n);
    RunKeepsGood(c, State(1, 1, None), ops[..n], from);
    var s, now := Run(c, State(1, 1, None), ops[..n]), LastTime(ops[..n], from);
    if s.current.Some? {
      GoodIsValidExactly(c, s, now);
      var held := s.current.value;
      forall i | 0 <= i < |held.cards| ensures held.cards[i].lastUpdatedAt <= now {
        assert GoodCard(c.rule, held.cards[i], held.generation, now);
      }
      hide ValidSnapshot, GoodCards, Run, Monotone;
    }
  }

  /** With a later clock, the published snapshot passes exactly when no expiring card was updated too late. */
  lemma {:induction false} ValidatorAgreesExactly(c: Config, ops: seq<Timed>, from: int)
    requires ValidConfig(c) && Monotone(ops, from)
    ensures var s := Run(c, State(1, 1, None), ops);
      s.current.Some? ==> (ValidSnapshot(c.rule, s.current.value) <==> EarlyEnough(s.current.value))
  {
    RunKeepsGood(c, State(1, 1, None), ops, from);
    if Run(c, State(1, 1, None), ops).current.Some? {
      GoodIsValidExactly(c, Run(c, State(1, 1, None), ops), LastTime(ops, from));
    }
  }

  /**
   One upsert, after any run: the card it publishes passes the validator exactly when its timeout never expires
   or the clock is a maximum timeout before its end. The other cards are those held before.
   */
  lemma {:induction false} UpsertedCardIsValidExactly(c: Config, s: State, input: Input, before: int, now: int)
    requires ValidConfig(c) && Good(c, s, before) && before <= now
    requires Upserted(c, s, input, now).1.Success?
    ensures var r := Upserted(c, s, input, now).1.value;
      var i := Find(r.snapshot.cards, r.id);
      && i < |r.snapshot.cards| && r.snapshot.cards[i].content == input.content
          && r.snapshot.cards[i].lastUpdatedAt == now
      && (CardFault(c.rule, r.snapshot.cards[i], r.snapshot.generation).None?
          <==> input.timeout.NeverTimeout? || now <= MAXIMUM_TIME - MAXIMUM_TIMEOUT)
      && r.snapshot.cards[..i] == Cards(s)[..i]
      && (r.snapshot.cards[i + 1..] == if r.replaced then Cards(s)[i + 1..] else [])
  {
    var r := Upserted(c, s, input, now).1.value;
    UpsertKeepsGood(c, s, input, before, now);
    var cards, i := r.snapshot.cards, Find(r.snapshot.cards, r.id);
    PlacedAt(c, s, input, now);
    assert GoodCard(c.rule, cards[i], r.snapshot.generation, now);
    GoodCardIsValid(c.rule, cards[i], r.snapshot.generation, now);
    hide InputFault, CardFault, GoodCards, Good, ImageTotal, GoodCard, Upserted;
  }

  /** Where an upsert puts its card. */
  lemma {:induction false} PlacedAt(c: Config, s: State, input: Input, now: int)
    requires Upserted(c, s, input, now).1.Success?
    requires s.current.Some? ==> DistinctIds(Cards(s)) && forall k :: 0 <= k < |Cards(s)| ==> Cards(s)[k].id != s.nextId
    ensures var r := Upserted(c, s, input, now).1.value;
      var i := Find(r.snapshot.cards, r.id);
      && i < |r.snapshot.cards| && r.snapshot.cards[i].content == input.content
          && r.snapshot.cards[i].lastUpdatedAt == now
      && (r.snapshot.cards[i].expiresAt.None? <==> input.timeout.NeverTimeout?)
      && r.snapshot.cards[..i] == Cards(s)[..i]
      && (r.snapshot.cards[i + 1..] == if r.replaced then Cards(s)[i + 1..] else [])
  {
    hide InputFault, ImageTotal;
    var r := Upserted(c, s, input, now).1.value;
    var held, cards := Cards(s), r.snapshot.cards;
    var i := if r.replaced then Find(held, r.id) else |held|;
    assert cards[i].id == r.id;
    assert forall k :: 0 <= k < i ==> cards[k].id == held[k].id;
    hide Upserted;
    assert Find(cards, r.id) == i;
  }

  const PLAIN_CONTENT := Content("x", "", None, None, Normal, NoVisual, [])

  /** A smallest notification that expires after a millisecond. */
  const PLAIN_INPUT := Input(None, PLAIN_CONTENT, ExplicitTimeout(1), true)

  predicate AcceptsPlainText(rule: TextRule) {
    && rule("x", MAXIMUM_SUMMARY_BYTES, MAXIMUM_SUMMARY_CODEPOINTS, false) == Utf8.TextValid
    && rule("", MAXIMUM_BODY_BYTES, MAXIMUM_BODY_CODEPOINTS, true) == Utf8.TextValid
  }

  lemma {:induction false} PlainInputIsAccepted(rule: TextRule)
    requires AcceptsPlainText(rule)
    ensures InputFault(rule, PLAIN_INPUT.content).None?
  {
  }

  lemma {:induction false} PlainInputIsPlaced(now: int, expiry: Option<int>)
    ensures var card := NewCard(PLAIN_INPUT, 1, 1, now, now, expiry);
      Placed(State(1, 1, None), PLAIN_INPUT, 1, now, expiry) == Success(([card], 1, false)) && ImageTotal([card]) == 0
  {
    var card := NewCard(PLAIN_INPUT, 1, 1, now, now, expiry);
    assert [card][..0] == [];
    assert [] + [card] == [card];
  }

  /**
   Within the last maximum timeout of the clock, but a millisecond before its end, a card is published that
   the validator rejects.
   */
  lemma {:induction false} LateCardIsRejected(c: Config, now: int)
    requires ValidConfig(c) && AcceptsPlainText(c.rule)
    requires MAXIMUM_TIME - MAXIMUM_TIMEOUT < now <= MAXIMUM_TIME - MILLISECOND
    ensures var r := Upserted(c, State(1, 1, None), PLAIN_INPUT, now).1;
      r.Success? && !ValidSnapshot(c.rule, r.value.snapshot)
  {
    PlainInputIsAccepted(c.rule);
    var expiry := ExpiryFor(c, PLAIN_INPUT.timeout, now);
    assert expiry == Success(Some(now + MILLISECOND));
    PlainInputIsPlaced(now, expiry.value);
    var card := NewCard(PLAIN_INPUT, 1, 1, now, now, expiry.value);
    assert ExpiryInvalid(card);
    hide InputFault, ExpiryFor, Placed, ImageTotal, ExpiryInvalid, TextsFault, VisualFault, ActionsFault;
    assert CardFault(c.rule, card, 1).Some?;
    hide CardFault;
    assert Upserted(c, State(1, 1, None), PLAIN_INPUT, now).1.value.snapshot.cards == [card];
  }

  /** Every run whose clock stays within a bound publishes only snapshots that pass the validator. */
  ghost predicate BoundSuffices(c: Config, from: int, bound: int) {
    forall ops :: Monotone(ops, from) && LastTime(ops, from) <= bound ==> Passes(c, Run(c, State(1, 1, None), ops))
  }

  predicate Passes(c: Config, s: State) {
    s.current.Some? ==> ValidSnapshot(c.rule, s.current.value)
  }

  /** A bound on the clock guarantees that publications pass exactly when it leaves a maximum timeout to the end. */
  lemma {:induction false} ClockBoundIsExact(c: Config, from: int, bound: int)
    requires ValidConfig(c) && AcceptsPlainText(c.rule)
    requires from <= MAXIMUM_TIME - MAXIMUM_TIMEOUT && from <= bound
    ensures BoundSuffices(c, from, bound) <==> bound <= MAXIMUM_TIME - MAXIMUM_TIMEOUT
  {
    if bound <= MAXIMUM_TIME - MAXIMUM_TIMEOUT {
      forall ops | Monotone(ops, from) && LastTime(ops, from) <= bound
        ensures Passes(c, Run(c, State(1, 1, None), ops)) {
        EveryPublicationIsValid(c, ops, from, |ops|);
        assert ops[..|ops|] == ops;
      }
    } else {
      var now := MAXIMUM_TIME - MAXIMUM_TIMEOUT + 1;
      LateCardIsRejected(c, now);
      var ops := [Timed(UpsertCard(PLAIN_INPUT), now)];
      assert Monotone(ops, from) by {
        assert ops[1..] == [];
      }
      var s := Upserted(c, State(1, 1, None), PLAIN_INPUT, now).0;
      assert Run(c, State(1, 1, None), ops) == Run(c, s, ops[1..]) == s;
      hide ValidSnapshot, InputFault, ExpiryFor, Placed, ImageTotal;
      assert !Passes(c, s);
    }
  }

  // ---------------------------------------------------------------- generations, failures and identities

  /** A failed operation changes nothing; a publication takes the next generation. */
  lemma {:induction false} StepPublishesNext(c: Config, s: State, t: Timed, before: int)
    requires ValidConfig(c) && Good(c, s, before)
    ensures !Succeeds(c, s, t) ==> Step(c, s, t) == s
    ensures Step(c, s, t) != s ==>
      && Step(c, s, t).current.Some? && s.nextGeneration != 0
      && Step(c, s, t).current.value.generation == s.nextGeneration
      && (s.current.Some? ==> s.current.value.generation < s.nextGeneration)
  {
    hide InputFault, ExpiryFor, Placed, Retained, Removed, ImageTotal, GoodCards;
  }

  predicate Live(s: State, id: nat) {
    exists i :: 0 <= i < |Cards(s)| && Cards(s)[i].id == id
  }

  lemma {:induction false} FewerAreLive(s: State, kept: seq<Card>, at: seq<nat>, id: nat, nextGeneration: nat,
      generation: nat)
    requires IsSubsequence(kept, Cards(s), at) && !Live(s, id)
    ensures !Live(State(s.nextId, nextGeneration, Some(Snapshot(generation, kept))), id)
  {
    assert forall k :: 0 <= k < |kept| ==> kept[k] == Cards(s)[at[k]];
  }

  lemma {:induction false} UpsertRevivesNothing(c: Config, s: State, input: Input, now: int, id: nat)
    requires s.nextId <= U64_MAX && id < NextOf(s.nextId) && !Live(s, id)
    ensures id < NextOf(Upserted(c, s, input, now).0.nextId) && !Live(Upserted(c, s, input, now).0, id)
  {
    hide InputFault, ExpiryFor, ImageTotal, Find;
    var t := Upserted(c, s, input, now).0;
    assert forall k :: 0 <= k < |Cards(s)| ==> Cards(s)[k].id != id;
    if t != s && input.replacementId.Some? {
      var i := Find(Cards(s), input.replacementId.value);
      assert forall k :: 0 <= k < |Cards(t)| ==> Cards(t)[k].id == Cards(s)[k].id;
    } else if t != s {
      assert forall k :: 0 <= k < |Cards(t)| ==> Cards(t)[k].id == if k < |Cards(s)| then Cards(s)[k].id else s.nextId;
    }
  }

  /** Only the next identifier can come to life, and it is then used up. */
  lemma {:induction false} StepRevivesNothing(c: Config, s: State, t: Timed, before: int, id: nat)
    requires ValidConfig(c) && Good(c, s, before) && before <= t.now
    requires id < NextOf(s.nextId) && !Live(s, id)
    ensures id < NextOf(Step(c, s, t).nextId) && !Live(Step(c, s, t), id)
  {
    hide Upserted, Retained, Removed, GoodCards, Live, IsSubsequence;
    match t.operation {
      case UpsertCard(input) => UpsertRevivesNothing(c, s, input, t.now, id);
      case DismissCard(id', expected) =>
        if Dismissed(s, id', expected).1.Success? {
          var at := DismissalIsSubsequence(Cards(s), Find(Cards(s), id'));
          FewerAreLive(s, Dismissed(s, id', expected).1.value.cards, at, id, Increment(s.nextGeneration),
            s.nextGeneration);
        }
      case AdvanceTimeouts =>
        var at := RetainedIsSubsequence(Cards(s), t.now);
        FewerAreLive(s, Retained(Cards(s), t.now), at, id, Increment(s.nextGeneration), s.nextGeneration);
    }
  }

  /** An identifier that was given out and is no longer live never becomes live again. */
  lemma {:induction false} RemovedStaysRemoved(c: Config, s: State, ops: seq<Timed>, from: int, id: nat)
    requires ValidConfig(c) && Good(c, s, from) && Monotone(ops, from)
    requires id < NextOf(s.nextId) && !Live(s, id)
    ensures !Live(Run(c, s, ops), id)
    decreases |ops|
  {
    hide Good, Step, ValidConfig, Live;
    if ops != [] {
      StepKeepsGood(c, s, ops[0], from);
      StepRevivesNothing(c, s, ops[0], from, id);
      RemovedStaysRemoved(c, Step(c, s, ops[0]), ops[1..], ops[0].now, id);
    }
  }

  /** Every live card has been given out, so its identifier is covered by the lemma above once it is gone. */
  lemma {:induction false} LiveWasGivenOut(c: Config, s: State, now: int, id: nat)
    requires Good(c, s, now) && Live(s, id)
    ensures 0 < id < NextOf(s.nextId)
  {
    hide InputFault, ImageTotal;
  }
}
