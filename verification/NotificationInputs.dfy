/**
 Which notifications are accepted, said of the input alone: texts that are present where they have to be and valid
 within their limits, identifiers of few and plain characters, packed images, distinct actions, a timeout that the
 clock can hold, and room for one more card. An upsert succeeds exactly for these, and the independent validator
 accepts exactly the cards that show such content with consistent times.
 */
module NotificationInputs {
  import opened Foundation
  import opened Notifications
  import opened Alphabets
  import Utf8

  const DAY_IN_MILLISECONDS: int := 24 * 60 * 60 * 1000
  const NANOSECONDS: int := 1000000

  predicate Named(s: string, most: nat, others: set<char>) {
    0 < |s| <= most && forall i :: 0 <= i < |s| ==> IsLetter(s[i]) || IsDigit(s[i]) || s[i] in others
  }

  predicate Reads(rule: TextRule, s: string, bytes: nat, codepoints: nat, body: bool) {
    rule(s, bytes, codepoints, body) == Utf8.TextValid
  }

  /** Rows of pixels without padding, three or four bytes each. */
  predicate Packed(format: PixelFormat, width: nat, height: nat, rowStride: nat, pixels: nat) {
    && 1 <= width <= 512 && 1 <= height <= 512
    && rowStride == (if format.Rgba8? then 4 * width else 3 * width)
    && pixels == height * rowStride && pixels <= 1048576
  }

  predicate Visible(v: Visual) {
    match v
    case NoVisual => true
    case ThemeIcon(name) => Named(name, 255, {'.', '_', '-'}) && name != "." && name != ".."
    case Image(format, width, height, rowStride, pixels) => Packed(format, width, height, rowStride, pixels)
  }

  predicate Offered(rule: TextRule, a: Action) {
    && Named(a.id, 64, {'.', '_', '-', ':'})
    && a.caption != "" && Reads(rule, a.caption, 512, 128, false)
  }

  predicate Presentable(rule: TextRule, c: Content) {
    && c.summary != "" && Reads(rule, c.summary, 1024, 256, false)
    && Reads(rule, c.body, 16384, 4096, true)
    && (c.applicationName.Some? ==>
          c.applicationName.value != "" && Reads(rule, c.applicationName.value, 512, 128, false))
    && (c.applicationId.Some? ==> Named(c.applicationId.value, 255, {'.', '_', '-'}))
    && Visible(c.visual)
    && |c.actions| <= 8 && (forall i :: 0 <= i < |c.actions| ==> Offered(rule, c.actions[i]))
    && forall i, j :: 0 <= i < j < |c.actions| ==> c.actions[i].id != c.actions[j].id
  }

  /** A default or explicit timeout has to end within the clock, an explicit one within a day. */
  predicate Lasts(c: Config, timeout: Timeout, now: int) {
    match timeout
    case DefaultTimeout(duration) => duration == 0 && now + NANOSECONDS * c.defaultTimeout <= MAXIMUM_TIME
    case NeverTimeout(duration) => duration == 0
    case ExplicitTimeout(duration) =>
      1 <= duration <= DAY_IN_MILLISECONDS && now + NANOSECONDS * duration <= MAXIMUM_TIME
  }

  // ---------------------------------------------------------------- content

  lemma {:induction false} NamesAgree(s: string, most: nat, colon: bool)
    ensures ValidIdentifier(s, most, colon)
        <==> Named(s, most, if colon then {'.', '_', '-', ':'} else {'.', '_', '-'})
  {
    forall i | 0 <= i < |s| ensures IsIdentifierCharacter(s[i])
        <==> IsLetter(s[i]) || IsDigit(s[i]) || s[i] in {'.', '_', '-'} {
      IdentifiersConsistOf(s[i]);
    }
    hide IsIdentifierCharacter, IsLetter, IsDigit;
  }

  lemma {:induction false} VisualsAgree(v: Visual)
    ensures VisualFault(v).None? <==> Visible(v)
  {
    hide ValidIdentifier, Named;
    if v.ThemeIcon? {
      NamesAgree(v.name, MAXIMUM_ICON_NAME_BYTES, false);
    }
  }

  lemma {:induction false} ActionsAgree(rule: TextRule, actions: seq<Action>, seen: set<string>)
    ensures ActionsFaultFrom(rule, actions, seen).None?
        <==> (forall i :: 0 <= i < |actions| ==> Offered(rule, actions[i]) && actions[i].id !in seen)
             && forall i, j :: 0 <= i < j < |actions| ==> actions[i].id != actions[j].id
    decreases |actions|
  {
    if actions != [] {
      var first, rest := actions[0], actions[1..];
      NamesAgree(first.id, MAXIMUM_ACTION_ID_BYTES, true);
      ActionsAgree(rule, rest, seen + {first.id});
      assert Offered(rule, first)
         <==> ValidIdentifier(first.id, MAXIMUM_ACTION_ID_BYTES, true)
              && TextFault(rule, first.caption, MAXIMUM_LABEL_BYTES, MAXIMUM_LABEL_CODEPOINTS, false, true).None?;
      hide Offered, ValidIdentifier, TextFault;
      assert forall i :: 0 <= i < |rest| ==> rest[i] == actions[i + 1];
      assert forall i :: 1 <= i < |actions| ==> actions[i] == rest[i - 1];
    }
  }

  /** The checks of an input pass exactly for presentable content. */
  lemma {:induction false} ContentIsAccepted(rule: TextRule, c: Content)
    ensures InputFault(rule, c).None? <==> Presentable(rule, c)
    ensures Presentable(rule, c)
        <==> TextsFault(rule, c).None? && VisualFault(c.visual).None? && ActionsFault(rule, c.actions).None?
  {
    if c.applicationId.Some? {
      NamesAgree(c.applicationId.value, MAXIMUM_ID_BYTES, false);
    }
    VisualsAgree(c.visual);
    ActionsAgree(rule, c.actions, {});
    hide VisualFault, Visible, ActionsFaultFrom, Offered, ValidIdentifier, Named;
  }

  /** The validator accepts exactly cards with presentable content, in order of time and with a near deadline. */
  lemma {:induction false} CardIsAcceptedExactly(rule: TextRule, card: Card, generation: nat)
    ensures CardFault(rule, card, generation).None? <==>
      && Presentable(rule, card.content)
      && card.id > 0 && card.focusable && card.role.NotificationRole?
      && card.contentGeneration <= generation && card.firstPresentedAt <= card.lastUpdatedAt
      && (card.expiresAt.Some? ==>
            var left := card.expiresAt.value - card.lastUpdatedAt;
            && 1 <= left <= NANOSECONDS * DAY_IN_MILLISECONDS
            && card.lastUpdatedAt + NANOSECONDS * DAY_IN_MILLISECONDS <= MAXIMUM_TIME)
  {
    ContentIsAccepted(rule, card.content);
    hide TextsFault, VisualFault, ActionsFault, Presentable, InputFault;
  }

  // ---------------------------------------------------------------- upserts

  lemma {:induction false} TimeoutsAgree(c: Config, timeout: Timeout, now: int)
    requires ValidConfig(c)
    ensures ExpiryFor(c, timeout, now).Success? <==> Lasts(c, timeout, now)
  {
  }

  lemma {:induction false} ImagesWith(cards: seq<Card>, i: nat, card: Card)
    requires i < |cards|
    ensures ImageTotal(cards[i := card])
         == ImageTotal(cards) - ImageBytes(cards[i].content.visual) + ImageBytes(card.content.visual)
    decreases |cards|
  {
    var front, last := cards[..|cards| - 1], |cards| - 1;
    if i == last {
      assert cards[i := card][..last] == front;
    } else {
      ImagesWith(front, i, card);
      assert cards[i := card][..last] == front[i := card];
    }
  }

  /** There is a card to replace, or room and an identifier for a new one, and the images fit in any case. */
  predicate HasRoom(s: State, input: Input) {
    var bytes := ImageTotal(Cards(s)) + ImageBytes(input.content.visual);
    match input.replacementId
    case None => |Cards(s)| < 32 && s.nextId != 0 && bytes <= MAXIMUM_SNAPSHOT_IMAGE_BYTES
    case Some(id) =>
      var i := Find(Cards(s), id);
      && i < |Cards(s)|
      && bytes - ImageBytes(Cards(s)[i].content.visual) <= MAXIMUM_SNAPSHOT_IMAGE_BYTES
  }

  lemma {:induction false} PlacedFits(s: State, input: Input, generation: nat, now: int, expiry: Option<int>)
    ensures HasRoom(s, input)
        <==> && Placed(s, input, generation, now, expiry).Success?
             && ImageTotal(Placed(s, input, generation, now, expiry).value.0) <= MAXIMUM_SNAPSHOT_IMAGE_BYTES
  {
    var cards := Cards(s);
    match input.replacementId
    case None =>
      var card := NewCard(input, s.nextId, generation, now, now, expiry);
      assert (cards + [card])[..|cards|] == cards;
    case Some(id) =>
      var i := Find(cards, id);
      if i < |cards| {
        ImagesWith(cards, i, NewCard(input, id, generation, cards[i].firstPresentedAt, now, expiry));
      }
  }

  /** An upsert succeeds exactly for presentable content that lasts, while there is a generation and room for it. */
  lemma {:induction false} UpsertSucceedsExactly(c: Config, s: State, input: Input, now: int)
    requires ValidConfig(c)
    ensures Upserted(c, s, input, now).1.Success?
        <==> Presentable(c.rule, input.content) && Lasts(c, input.timeout, now) && s.nextGeneration != 0
             && HasRoom(s, input)
  {
    ContentIsAccepted(c.rule, input.content);
    TimeoutsAgree(c, input.timeout, now);
    if ExpiryFor(c, input.timeout, now).Success? {
      PlacedFits(s, input, s.nextGeneration, now, ExpiryFor(c, input.timeout, now).value);
    }
    hide InputFault, Presentable, Lasts, HasRoom, Placed, ExpiryFor, ImageTotal;
  }
}
