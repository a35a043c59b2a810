/**
 The bounds of theme documents, checked twice: by an automaton over the events of the JSON reader, before
 any tree is built, and by a recursive pass over the finished tree.

 The automaton accepts exactly the documents within the documented bounds, so the later pass never rejects
 a document that the automaton let through.
 */
module ThemeBounds {
  import opened Foundation
  import Utf8
  import opened Ordering

  const MAXIMUM_NODES: nat := 4096
  const MAXIMUM_NESTING: nat := 16
  const MAXIMUM_ARRAY_ITEMS: nat := 64
  const MAXIMUM_OBJECT_ENTRIES: nat := 256
  const MAXIMUM_STRING_CODE_POINTS: nat := 256

  datatype Json =
    | Null | Bool(value: bool) | Integer(number: int) | Float(finite: bool) | String(text: string) | Binary
    | Array(items: seq<Json>) | Object(members: seq<Member>)

  datatype Member = Member(key: string, value: Json)

  predicate ShortText(s: string) {
    Utf8.CodePointCount(BytesOf(s)) <= MAXIMUM_STRING_CODE_POINTS
  }

  // ---------------------------------------------------------------- the documented bounds

  /** Values and containers of a document. */
  function NodeCount(t: Json): nat
    decreases t
  {
    match t
    case Array(items) => 1 + ItemNodes(items)
    case Object(members) => 1 + MemberNodes(members)
    case _ => 1
  }

  function ItemNodes(items: seq<Json>): nat
    decreases items
  {
    if items == [] then 0 else NodeCount(items[0]) + ItemNodes(items[1..])
  }

  function MemberNodes(members: seq<Member>): nat
    decreases members
  {
    if members == [] then 0 else NodeCount(members[0].value) + MemberNodes(members[1..])
  }

  predicate DistinctKeys(members: seq<Member>) {
    forall i, j :: 0 <= i < j < |members| ==> members[i].key != members[j].key
  }

  predicate ShortKeys(members: seq<Member>) {
    forall i :: 0 <= i < |members| ==> ShortText(members[i].key)
  }

  /** Nesting, sizes, keys, strings and numbers of a value at some depth are within bounds. */
  predicate Fits(t: Json, depth: nat)
    decreases t
  {
    && depth <= MAXIMUM_NESTING
    && match t
       case Float(finite) => finite
       case String(text) => ShortText(text)
       case Binary => false
       case Array(items) => |items| <= MAXIMUM_ARRAY_ITEMS && forall i :: 0 <= i < |items| ==> Fits(items[i], depth + 1)
       case Object(members) =>
         && |members| <= MAXIMUM_OBJECT_ENTRIES && DistinctKeys(members) && ShortKeys(members)
         && forall i :: 0 <= i < |members| ==> Fits(members[i].value, depth + 1)
       case _ => true
  }

  predicate WithinBounds(t: Json) {
    NodeCount(t) <= MAXIMUM_NODES && Fits(t, 0)
  }

  // ---------------------------------------------------------------- the automaton, on values

  datatype Event =
    | NullEvent | BoolEvent | NumberEvent | FloatEvent(finite: bool) | StringEvent(text: string) | BinaryEvent
    | StartObject(elements: Option<nat>) | KeyEvent(key: string) | EndObject
    | StartArray(elements: Option<nat>) | EndArray

  datatype Frame = Frame(isObject: bool, items: nat, keys: set<string>)

  datatype Sax = Sax(nodes: nat, stack: seq<Frame>, failure: Option<ErrorCode>)

  datatype Fed = Fed(sax: Sax, ok: bool)

  function Fail(s: Sax, error: ErrorCode): Fed {
    Fed(if s.failure.None? then s.(failure := Some(error)) else s, false)
  }

  function Top(s: Sax): Frame
    requires s.stack != []
  {
    s.stack[|s.stack| - 1]
  }

  function WithTop(s: Sax, frame: Frame): Sax
    requires s.stack != []
  {
    s.(stack := s.stack[..|s.stack| - 1] + [frame])
  }

  /** Counting a value, and as an item when an array holds it. */
  function NoteValue(s: Sax): Fed {
    var counted := s.(nodes := s.nodes + 1);
    if counted.nodes > MAXIMUM_NODES then Fail(counted, ValidationError)
    else if s.stack == [] || Top(s).isObject then Fed(counted, true)
    else
      var noted := WithTop(counted, Top(s).(items := Top(s).items + 1));
      if Top(noted).items > MAXIMUM_ARRAY_ITEMS then Fail(noted, ValidationError) else Fed(noted, true)
  }

  function FeedScalar(s: Sax): Fed {
    if |s.stack| > MAXIMUM_NESTING then Fail(s, ValidationError) else NoteValue(s)
  }

  function FeedStart(s: Sax, isObject: bool, elements: Option<nat>, limit: nat): Fed {
    var noted := NoteValue(s);
    if !noted.ok then noted
    else if |noted.sax.stack| > MAXIMUM_NESTING || (elements.Some? && elements.value > limit) then
      Fail(noted.sax, ValidationError)
    else Fed(noted.sax.(stack := noted.sax.stack + [Frame(isObject, 0, {})]), true)
  }

  function FeedKey(s: Sax, key: string): Fed {
    if s.stack == [] || !Top(s).isObject then Fail(s, SyntaxError)
    else
      var counted := WithTop(s, Top(s).(items := Top(s).items + 1));
      if Top(counted).items > MAXIMUM_OBJECT_ENTRIES then Fail(counted, ValidationError)
      else if !ShortText(key) then Fail(counted, ValidationError)
      else if key in Top(counted).keys then Fail(counted, SyntaxError)
      else Fed(WithTop(counted, Top(counted).(keys := Top(counted).keys + {key})), true)
  }

  function FeedEnd(s: Sax, isObject: bool): Fed {
    if s.stack == [] || Top(s).isObject != isObject then Fail(s, SyntaxError)
    else Fed(s.(stack := s.stack[..|s.stack| - 1]), true)
  }

  function Feed(s: Sax, e: Event): Fed {
    match e
    case NullEvent => FeedScalar(s)
    case BoolEvent => FeedScalar(s)
    case NumberEvent => FeedScalar(s)
    case FloatEvent(finite) => if finite then FeedScalar(s) else Fail(s, SyntaxError)
    case StringEvent(text) => if ShortText(text) then FeedScalar(s) else Fail(s, ValidationError)
    case BinaryEvent => Fail(s, SyntaxError)
    case StartObject(elements) => FeedStart(s, true, elements, MAXIMUM_OBJECT_ENTRIES)
    case KeyEvent(key) => FeedKey(s, key)
    case EndObject => FeedEnd(s, true)
    case StartArray(elements) => FeedStart(s, false, elements, MAXIMUM_ARRAY_ITEMS)
    case EndArray => FeedEnd(s, false)
  }

  /** The reader stops at the first event that is refused. */
  function FeedAll(s: Sax, events: seq<Event>): Fed
    decreases |events|
  {
    if events == [] then Fed(s, true)
    else
      var fed := Feed(s, events[0]);
      if fed.ok then FeedAll(fed.sax, events[1..]) else fed
  }

  // ---------------------------------------------------------------- the events of a document

  /** The reader of JSON text does not know sizes in advance. */
  function Events(t: Json): seq<Event>
    decreases t
  {
    match t
    case Null => [NullEvent]
    case Bool(_) => [BoolEvent]
    case Integer(_) => [NumberEvent]
    case Float(finite) => [FloatEvent(finite)]
    case String(text) => [StringEvent(text)]
    case Binary => [BinaryEvent]
    case Array(items) => [StartArray(None)] + ItemEvents(items) + [EndArray]
    case Object(members) => [StartObject(None)] + MemberEvents(members) + [EndObject]
  }

  function ItemEvents(items: seq<Json>): seq<Event>
    decreases items
  {
    if items == [] then [] else Events(items[0]) + ItemEvents(items[1..])
  }

  function MemberEvents(members: seq<Member>): seq<Event>
    decreases members
  {
    if members == [] then []
    else [KeyEvent(members[0].key)] + Events(members[0].value) + MemberEvents(members[1..])
  }

  const START := Sax(0, [], None)

  predicate SaxAccepts(t: Json) {
    FeedAll(START, Events(t)).ok
  }

  // ---------------------------------------------------------------- the automaton follows the document

  predicate HasRoom(s: Sax) {
    s.stack == [] || Top(s).isObject || Top(s).items < MAXIMUM_ARRAY_ITEMS
  }

  predicate Admitted(s: Sax, t: Json) {
    s.nodes + NodeCount(t) <= MAXIMUM_NODES && Fits(t, |s.stack|) && HasRoom(s)
  }

  /** The automaton after a whole value. */
  function AfterValue(s: Sax, t: Json): Sax {
    var counted := s.(nodes := s.nodes + NodeCount(t));
    if s.stack == [] || Top(s).isObject then counted else WithTop(counted, Top(s).(items := Top(s).items + 1))
  }

  predicate InArray(s: Sax) {
    s.stack != [] && !Top(s).isObject
  }

  predicate InObject(s: Sax) {
    s.stack != [] && Top(s).isObject
  }

  /** No limit has been passed so far. */
  predicate Sane(s: Sax) {
    s.nodes <= MAXIMUM_NODES && (InArray(s) ==> Top(s).items <= MAXIMUM_ARRAY_ITEMS)
      && (InObject(s) ==> Top(s).items <= MAXIMUM_OBJECT_ENTRIES)
  }

  predicate AdmittedItems(s: Sax, items: seq<Json>)
    requires InArray(s)
  {
    && s.nodes + ItemNodes(items) <= MAXIMUM_NODES && Top(s).items + |items| <= MAXIMUM_ARRAY_ITEMS
    && forall i :: 0 <= i < |items| ==> Fits(items[i], |s.stack|)
  }

  function AfterItems(s: Sax, items: seq<Json>): Sax
    requires InArray(s)
  {
    WithTop(s.(nodes := s.nodes + ItemNodes(items)), Top(s).(items := Top(s).items + |items|))
  }

  function KeySet(members: seq<Member>): set<string> {
    if members == [] then {} else {members[0].key} + KeySet(members[1..])
  }

  predicate AdmittedMembers(s: Sax, members: seq<Member>)
    requires InObject(s)
  {
    && s.nodes + MemberNodes(members) <= MAXIMUM_NODES && Top(s).items + |members| <= MAXIMUM_OBJECT_ENTRIES
    && DistinctKeys(members) && ShortKeys(members)
    && (forall i :: 0 <= i < |members| ==> members[i].key !in Top(s).keys)
    && (forall i :: 0 <= i < |members| ==> Fits(members[i].value, |s.stack|))
  }

  function AfterMembers(s: Sax, members: seq<Member>): Sax
    requires InObject(s)
  {
    WithTop(s.(nodes := s.nodes + MemberNodes(members)),
            Top(s).(items := Top(s).items + |members|, keys := Top(s).keys + KeySet(members)))
  }

  lemma {:induction false} FeedOne(s: Sax, e: Event, rest: seq<Event>)
    ensures FeedAll(s, [e] + rest) == if Feed(s, e).ok then FeedAll(Feed(s, e).sax, rest) else Feed(s, e)
  {
    assert ([e] + rest)[1..] == rest;
  }

  lemma {:induction false} TopOfWithTop(s: Sax, frame: Frame)
    requires s.stack != []
    ensures Top(WithTop(s, frame)) == frame && |WithTop(s, frame).stack| == |s.stack|
    ensures forall f :: WithTop(WithTop(s, frame), f) == WithTop(s, f)
  {
    var front := s.stack[..|s.stack| - 1];
    assert (front + [frame])[..|front|] == front;
  }

  lemma {:induction false} NoteValueNotes(s: Sax)
    ensures NoteValue(s).ok <==> s.nodes + 1 <= MAXIMUM_NODES && HasRoom(s)
    ensures NoteValue(s).ok ==>
      NoteValue(s).sax == if s.stack == [] || Top(s).isObject then s.(nodes := s.nodes + 1)
                          else WithTop(s.(nodes := s.nodes + 1), Top(s).(items := Top(s).items + 1))
    ensures |NoteValue(s).sax.stack| == |s.stack|
  {
    if InArray(s) {
      TopOfWithTop(s.(nodes := s.nodes + 1), Top(s).(items := Top(s).items + 1));
    }
  }

  lemma {:induction false} ScalarFeeds(s: Sax, t: Json, rest: seq<Event>)
    requires !t.Array? && !t.Object?
    ensures if Admitted(s, t) then FeedAll(s, Events(t) + rest) == FeedAll(AfterValue(s, t), rest)
            else !FeedAll(s, Events(t) + rest).ok
  {
    var e := Events(t)[0];
    assert Events(t) == [e];
    FeedOne(s, e, rest);
    ScalarAdmitted(s, t);
    hide *;
  }

  lemma {:induction false} ScalarAdmitted(s: Sax, t: Json)
    requires !t.Array? && !t.Object?
    ensures Feed(s, Events(t)[0]).ok <==> Admitted(s, t)
    ensures Admitted(s, t) ==> Feed(s, Events(t)[0]).sax == AfterValue(s, t)
  {
    NoteValueNotes(s);
    hide ShortText, NoteValue, WithTop;
  }

  /** Feeding the events of a value either completes it or is refused, as the bounds say. */
  lemma {:induction false} ValueFeeds(s: Sax, t: Json, rest: seq<Event>)
    ensures if Admitted(s, t) then FeedAll(s, Events(t) + rest) == FeedAll(AfterValue(s, t), rest)
            else !FeedAll(s, Events(t) + rest).ok
    decreases t
  {
    match t {
      case Array(items) => ArrayFeeds(s, items, rest);
      case Object(members) => ObjectFeeds(s, members, rest);
      case _ => ScalarFeeds(s, t, rest);
    }
  }

  lemma {:induction false} PushPop(s: Sax, frame: Frame, changed: Frame)
    ensures var pushed := s.(stack := s.stack + [frame]);
      && Top(pushed) == frame
      && WithTop(pushed, changed) == s.(stack := s.stack + [changed])
      && FeedEnd(s.(stack := s.stack + [changed]), changed.isObject) == Fed(s, true)
  {
    assert (s.stack + [frame])[..|s.stack|] == s.stack;
    assert (s.stack + [changed])[..|s.stack|] == s.stack;
  }

  /** Entering an array: its items are admitted when the array is, and leaving it completes the value. */
  lemma {:induction false} EnterArray(s: Sax, items: seq<Json>)
    requires Feed(s, StartArray(None)).ok
    ensures var pushed := Feed(s, StartArray(None)).sax;
      && InArray(pushed) && Sane(pushed)
      && (AdmittedItems(pushed, items) <==> Admitted(s, Array(items)))
      && Feed(AfterItems(pushed, items), EndArray) == Fed(AfterValue(s, Array(items)), true)
  {
    NoteValueNotes(s);
    hide NoteValue, Events, NodeCount, Fits;
    var noted, t := NoteValue(s).sax, Array(items);
    var empty, filled := Frame(false, 0, {}), Frame(false, |items|, {});
    PushPop(noted, empty, filled);
    PushPop(noted.(nodes := s.nodes + NodeCount(t)), empty, filled);
    ArrayBounds(items, |s.stack|);
    assert Feed(s, StartArray(None)).sax == noted.(stack := noted.stack + [empty]);
    hide WithTop, Top, FeedStart;
    ArrayCompletes(s, items);
  }

  lemma {:induction false} ArrayBounds(items: seq<Json>, depth: nat)
    ensures NodeCount(Array(items)) == 1 + ItemNodes(items)
    ensures Fits(Array(items), depth) <==>
      depth <= MAXIMUM_NESTING && |items| <= MAXIMUM_ARRAY_ITEMS && forall i :: 0 <= i < |items| ==>
        Fits(items[i], depth + 1)
  {
  }

  lemma {:induction false} NotedIsValue(s: Sax, t: Json)
    requires NoteValue(s).ok
    ensures NoteValue(s).sax.(nodes := s.nodes + NodeCount(t)) == AfterValue(s, t)
  {
    NoteValueNotes(s);
    hide NoteValue, NodeCount;
  }

  /** A container that was entered can be filled and left, which completes its value. */
  lemma {:induction false} ContainerCompletes(s: Sax, t: Json, filled: Frame, limit: nat)
    requires FeedStart(s, filled.isObject, None, limit).ok
    ensures var pushed := FeedStart(s, filled.isObject, None, limit).sax;
      && pushed.stack != [] && Top(pushed) == Frame(filled.isObject, 0, {})
      && pushed.nodes == s.nodes + 1 <= MAXIMUM_NODES
      && FeedEnd(WithTop(pushed.(nodes := s.nodes + NodeCount(t)), filled), filled.isObject)
          == Fed(AfterValue(s, t), true)
  {
    NoteValueNotes(s);
    NotedIsValue(s, t);
    hide NoteValue, AfterValue, NodeCount;
    var noted, empty := NoteValue(s).sax, Frame(filled.isObject, 0, {});
    PushPop(noted, empty, filled);
    PushPop(noted.(nodes := s.nodes + NodeCount(t)), empty, filled);
    assert FeedStart(s, filled.isObject, None, limit).sax == noted.(stack := noted.stack + [empty]);
    hide WithTop, FeedEnd, FeedStart;
  }

  lemma {:induction false} ArrayCompletes(s: Sax, items: seq<Json>)
    requires Feed(s, StartArray(None)).ok
    ensures var pushed := Feed(s, StartArray(None)).sax;
      && InArray(pushed) && Sane(pushed)
          && Feed(AfterItems(pushed, items), EndArray) == Fed(AfterValue(s, Array(items)), true)
  {
    hide FeedStart, FeedEnd, WithTop, Top, AfterValue;
    ContainerCompletes(s, Array(items), Frame(false, |items|, {}), MAXIMUM_ARRAY_ITEMS);
  }

  lemma {:induction false} RefusedStart(s: Sax, t: Json)
    requires (t.Array? && !Feed(s, StartArray(None)).ok) || (t.Object? && !Feed(s, StartObject(None)).ok)
    ensures !Admitted(s, t)
  {
    NoteValueNotes(s);
    hide NoteValue;
  }

  lemma {:induction false} ArrayFeeds(s: Sax, items: seq<Json>, rest: seq<Event>)
    ensures var t := Array(items);
      if Admitted(s, t) then FeedAll(s, Events(t) + rest) == FeedAll(AfterValue(s, t), rest)
      else !FeedAll(s, Events(t) + rest).ok
    decreases items, 1
  {
    var t := Array(items);
    var tail := ItemEvents(items) + ([EndArray] + rest);
    assert Events(t) + rest == [StartArray(None)] + tail;
    FeedOne(s, StartArray(None), tail);
    hide *;
    if Feed(s, StartArray(None)).ok {
      EnterArray(s, items);
      var pushed := Feed(s, StartArray(None)).sax;
      ItemsFeed(pushed, items, [EndArray] + rest);
      FeedOne(AfterItems(pushed, items), EndArray, rest);
    } else {
      RefusedStart(s, t);
    }
  }

  lemma {:induction false} ItemsAdmitted(s: Sax, items: seq<Json>)
    requires InArray(s) && items != []
    ensures !Admitted(s, items[0]) ==> !AdmittedItems(s, items)
    ensures Admitted(s, items[0]) ==>
      var next := AfterValue(s, items[0]);
      && InArray(next) && Sane(next)
      && (AdmittedItems(s, items) <==> AdmittedItems(next, items[1..]))
      && AfterItems(next, items[1..]) == AfterItems(s, items)
  {
    TopOfWithTop(s.(nodes := s.nodes + NodeCount(items[0])), Top(s).(items := Top(s).items + 1));
    var rest := items[1..];
    assert forall i :: 0 < i < |items| ==> items[i] == rest[i - 1];
    assert forall i :: 0 <= i < |rest| ==> rest[i] == items[i + 1];
    hide NodeCount, Fits, WithTop, Top;
    if Admitted(s, items[0]) {
      assert Fits(items[0], |s.stack|);
    }
  }

  lemma {:induction false} ItemsFeed(s: Sax, items: seq<Json>, rest: seq<Event>)
    requires InArray(s) && Sane(s)
    ensures if AdmittedItems(s, items) then FeedAll(s, ItemEvents(items) + rest) == FeedAll(AfterItems(s, items), rest)
            else !FeedAll(s, ItemEvents(items) + rest).ok
    decreases items, 0
  {
    if items == [] {
      NothingFeeds(s, rest);
    } else {
      var tail := ItemEvents(items[1..]) + rest;
      assert ItemEvents(items) + rest == Events(items[0]) + tail;
      hide *;
      ValueFeeds(s, items[0], tail);
      ItemsAdmitted(s, items);
      if Admitted(s, items[0]) {
        ItemsFeed(AfterValue(s, items[0]), items[1..], rest);
      }
    }
  }

  lemma {:induction false} NothingFeeds(s: Sax, rest: seq<Event>)
    requires s.stack != [] && Sane(s)
    ensures [] + rest == rest
    ensures InArray(s) ==> AfterItems(s, []) == s && AdmittedItems(s, [])
    ensures InObject(s) ==> AfterMembers(s, []) == s && AdmittedMembers(s, [])
  {
    assert s.stack[..|s.stack| - 1] + [Top(s)] == s.stack;
    assert Top(s).keys + {} == Top(s).keys;
  }

  lemma {:induction false} EnterObject(s: Sax, members: seq<Member>)
    requires Feed(s, StartObject(None)).ok
    ensures var pushed := Feed(s, StartObject(None)).sax;
      && InObject(pushed) && Sane(pushed)
      && (AdmittedMembers(pushed, members) <==> Admitted(s, Object(members)))
      && Feed(AfterMembers(pushed, members), EndObject) == Fed(AfterValue(s, Object(members)), true)
  {
    NoteValueNotes(s);
    hide NoteValue, Events, NodeCount, Fits, DistinctKeys, ShortKeys, KeySet;
    var noted, t := NoteValue(s).sax, Object(members);
    var empty, filled := Frame(true, 0, {}), Frame(true, |members|, KeySet(members));
    PushPop(noted, empty, filled);
    ObjectBounds(members, |s.stack|);
    assert Feed(s, StartObject(None)).sax == noted.(stack := noted.stack + [empty]);
    hide WithTop, Top, FeedStart;
    ObjectCompletes(s, members);
  }

  lemma {:induction false} ObjectBounds(members: seq<Member>, depth: nat)
    ensures NodeCount(Object(members)) == 1 + MemberNodes(members)
    ensures Fits(Object(members), depth) <==>
      && depth <= MAXIMUM_NESTING && |members| <= MAXIMUM_OBJECT_ENTRIES && DistinctKeys(members) && ShortKeys(members)
      && forall i :: 0 <= i < |members| ==> Fits(members[i].value, depth + 1)
  {
  }

  lemma {:induction false} ObjectCompletes(s: Sax, members: seq<Member>)
    requires Feed(s, StartObject(None)).ok
    ensures var pushed := Feed(s, StartObject(None)).sax;
      && InObject(pushed) && Sane(pushed)
          && Feed(AfterMembers(pushed, members), EndObject) == Fed(AfterValue(s, Object(members)), true)
  {
    hide FeedStart, FeedEnd, WithTop, Top, AfterValue, KeySet;
    assert {} + KeySet(members) == KeySet(members);
    ContainerCompletes(s, Object(members), Frame(true, |members|, KeySet(members)), MAXIMUM_OBJECT_ENTRIES);
  }

  lemma {:induction false} ObjectFeeds(s: Sax, members: seq<Member>, rest: seq<Event>)
    ensures var t := Object(members);
      if Admitted(s, t) then FeedAll(s, Events(t) + rest) == FeedAll(AfterValue(s, t), rest)
      else !FeedAll(s, Events(t) + rest).ok
    decreases members, 1
  {
    var t := Object(members);
    var tail := MemberEvents(members) + ([EndObject] + rest);
    assert Events(t) + rest == [StartObject(None)] + tail;
    FeedOne(s, StartObject(None), tail);
    hide *;
    if Feed(s, StartObject(None)).ok {
      EnterObject(s, members);
      var pushed := Feed(s, StartObject(None)).sax;
      MembersFeed(pushed, members, [EndObject] + rest);
      FeedOne(AfterMembers(pushed, members), EndObject, rest);
    } else {
      RefusedStart(s, t);
    }
  }

  /** A key is taken when there is room for it, it is short and it is new. */
  lemma {:induction false} KeyFeeds(s: Sax, key: string)
    requires InObject(s)
    ensures Feed(s, KeyEvent(key)).ok
        <==> Top(s).items < MAXIMUM_OBJECT_ENTRIES && ShortText(key) && key !in Top(s).keys
    ensures Feed(s, KeyEvent(key)).ok ==>
      Feed(s, KeyEvent(key)).sax == WithTop(s, Top(s).(items := Top(s).items + 1, keys := Top(s).keys + {key}))
  {
    hide ShortText;
    TopOfWithTop(s, Top(s).(items := Top(s).items + 1));
  }

  /** Feeding the first member, key and value, when both are taken. */
  function AfterMember(s: Sax, m: Member): Sax
    requires InObject(s)
  {
    WithTop(s.(nodes := s.nodes + NodeCount(m.value)),
      Top(s).(items := Top(s).items + 1, keys := Top(s).keys + {m.key}))
  }

  lemma {:induction false} KeysSplit(members: seq<Member>)
    requires members != []
    ensures DistinctKeys(members)
      <==> DistinctKeys(members[1..]) && forall i :: 0 <= i < |members[1..]| ==> members[1..][i].key != members[0].key
    ensures ShortKeys(members) <==> ShortText(members[0].key) && ShortKeys(members[1..])
  {
    hide ShortText;
    var rest := members[1..];
    assert forall i :: 0 < i < |members| ==> members[i] == rest[i - 1];
    assert forall i :: 0 <= i < |rest| ==> rest[i] == members[i + 1];
  }

  lemma {:induction false} MembersAdmitted(s: Sax, members: seq<Member>)
    requires InObject(s) && members != []
    ensures var next := AfterMember(s, members[0]);
      && InObject(next)
      && AfterMembers(next, members[1..]) == AfterMembers(s, members)
      && (AdmittedMembers(s, members) <==>
            && ShortText(members[0].key) && members[0].key !in Top(s).keys && Fits(members[0].value, |s.stack|)
            && AdmittedMembers(next, members[1..]))
  {
    var rest := members[1..];
    TopOfWithTop(s.(nodes := s.nodes + NodeCount(members[0].value)),
                 Top(s).(items := Top(s).items + 1, keys := Top(s).keys + {members[0].key}));
    assert Top(s).keys + {members[0].key} + KeySet(rest) == Top(s).keys + KeySet(members);
    assert forall i :: 0 < i < |members| ==> members[i] == rest[i - 1];
    assert forall i :: 0 <= i < |rest| ==> rest[i] == members[i + 1];
    KeysSplit(members);
    hide NodeCount, Fits, ShortText, KeySet, WithTop, Top, DistinctKeys, ShortKeys;
  }

  /** After its key the value of a member is admitted as the bounds of the member say. */
  lemma {:induction false} MemberAdmitted(s: Sax, m: Member)
    requires InObject(s)
    ensures Feed(s, KeyEvent(m.key)).ok
        <==> Top(s).items < MAXIMUM_OBJECT_ENTRIES && ShortText(m.key) && m.key !in Top(s).keys
    ensures Feed(s, KeyEvent(m.key)).ok ==>
      var keyed := Feed(s, KeyEvent(m.key)).sax;
      && (Admitted(keyed, m.value) <==> s.nodes + NodeCount(m.value) <= MAXIMUM_NODES && Fits(m.value, |s.stack|))
      && AfterValue(keyed, m.value) == AfterMember(s, m)
      && (Admitted(keyed, m.value) ==> Sane(AfterMember(s, m)))
  {
    hide ShortText, NodeCount, Fits;
    KeyFeeds(s, m.key);
    TopOfWithTop(s, Top(s).(items := Top(s).items + 1, keys := Top(s).keys + {m.key}));
  }

  lemma {:induction false} MembersFeed(s: Sax, members: seq<Member>, rest: seq<Event>)
    requires InObject(s) && Sane(s)
    ensures if AdmittedMembers(s, members) then
        FeedAll(s, MemberEvents(members) + rest) == FeedAll(AfterMembers(s, members), rest)
            else !FeedAll(s, MemberEvents(members) + rest).ok
    decreases members, 0
  {
    if members == [] {
      NothingFeeds(s, rest);
    } else {
      var m := members[0];
      var tail := MemberEvents(members[1..]) + rest;
      assert MemberEvents(members) + rest == [KeyEvent(m.key)] + (Events(m.value) + tail);
      assert AdmittedMembers(s, members) ==>
          Top(s).items < MAXIMUM_OBJECT_ENTRIES && s.nodes + NodeCount(m.value) <= MAXIMUM_NODES;
      hide *;
      FeedOne(s, KeyEvent(m.key), Events(m.value) + tail);
      MemberAdmitted(s, m);
      MembersAdmitted(s, members);
      if Feed(s, KeyEvent(m.key)).ok {
        var keyed := Feed(s, KeyEvent(m.key)).sax;
        ValueFeeds(keyed, m.value, tail);
        if Admitted(keyed, m.value) {
          MembersFeed(AfterMember(s, m), members[1..], rest);
        }
      }
    }
  }

  /** The automaton accepts exactly the documents within bounds. */
  lemma {:induction false} SaxAcceptsExactlyBounds(t: Json)
    ensures SaxAccepts(t) <==> WithinBounds(t)
  {
    ValueFeeds(START, t, []);
    assert Events(t) + [] == Events(t);
    hide Events, Fits, NodeCount;
  }

  // ---------------------------------------------------------------- the automaton of the source

  class ThemeBoundsSax {
    var nodes: nat
    var stack: seq<Frame>
    var failure: Option<ErrorCode>

    ghost function Abstract(): Sax
      reads this
    {
      Sax(nodes, stack, failure)
    }

    constructor ()
      ensures Abstract() == START
    {
      nodes, stack, failure := 0, [], None;
    }

    method Refuse(error: ErrorCode) returns (ok: bool)
      modifies `failure
      ensures Fed(Abstract(), ok) == Fail(old(Abstract()), error)
    {
      if failure.None? {
        failure := Some(error);
      }
      return false;
    }

    method AddNode() returns (ok: bool)
      modifies `nodes, `failure
      ensures var counted := old(Abstract()).(nodes := old(nodes) + 1);
        Fed(Abstract(), ok) ==
        if counted.nodes > MAXIMUM_NODES then Fail(counted, ValidationError) else Fed(counted, true)
    {
      nodes := nodes + 1;
      if nodes > MAXIMUM_NODES {
        ok := Refuse(ValidationError);
        return;
      }
      return true;
    }

    method NoteArrayItem() returns (ok: bool)
      modifies `stack, `failure
      ensures var s := old(Abstract());
        Fed(Abstract(), ok) ==
          if s.stack == [] || Top(s).isObject then Fed(s, true)
          else
            var noted := WithTop(s, Top(s).(items := Top(s).items + 1));
            if Top(noted).items > MAXIMUM_ARRAY_ITEMS then Fail(noted, ValidationError) else Fed(noted, true)
    {
      if stack == [] || stack[|stack| - 1].isObject {
        return true;
      }
      var frame := stack[|stack| - 1];
      stack := stack[..|stack| - 1] + [frame.(items := frame.items + 1)];
      if frame.items + 1 > MAXIMUM_ARRAY_ITEMS {
        ok := Refuse(ValidationError);
        return;
      }
      return true;
    }

    method ContainerValue() returns (ok: bool)
      modifies this
      ensures Fed(Abstract(), ok) == NoteValue(old(Abstract()))
    {
      hide WithTop;
      ok := AddNode();
      if ok {
        ok := NoteArrayItem();
      }
    }

    method Scalar() returns (ok: bool)
      modifies this
      ensures Fed(Abstract(), ok) == FeedScalar(old(Abstract()))
    {
      hide NoteValue;
      if |stack| > MAXIMUM_NESTING {
        ok := Refuse(ValidationError);
        return;
      }
      ok := ContainerValue();
    }

    method NumberFloat(finite: bool) returns (ok: bool)
      modifies this
      ensures Fed(Abstract(), ok) == Feed(old(Abstract()), FloatEvent(finite))
    {
      hide FeedScalar;
      if !finite {
        ok := Refuse(SyntaxError);
        return;
      }
      ok := Scalar();
    }

    method StringValue(text: string) returns (ok: bool)
      modifies this
      ensures Fed(Abstract(), ok) == Feed(old(Abstract()), StringEvent(text))
    {
      hide FeedScalar, Utf8.CodePointCount;
      if Utf8.CodePointCount(BytesOf(text)) > MAXIMUM_STRING_CODE_POINTS {
        ok := Refuse(ValidationError);
        return;
      }
      ok := Scalar();
    }

    method StartContainer(isObject: bool, elements: Option<nat>, limit: nat) returns (ok: bool)
      modifies this
      ensures Fed(Abstract(), ok) == FeedStart(old(Abstract()), isObject, elements, limit)
    {
      NoteValueNotes(Abstract());
      hide WithTop;
      var counted := ContainerValue();
      if !counted || |stack| > MAXIMUM_NESTING || (elements.Some? && elements.value > limit) {
        if counted {
          ok := Refuse(ValidationError);
          return;
        }
        return false;
      }
      stack := stack + [Frame(isObject, 0, {})];
      return true;
    }

    method Key(key: string) returns (ok: bool)
      modifies this
      ensures Fed(Abstract(), ok) == FeedKey(old(Abstract()), key)
    {
      hide ShortText;
      if stack == [] || !stack[|stack| - 1].isObject {
        ok := Refuse(SyntaxError);
        return;
      }
      var front := stack[..|stack| - 1];
      var frame := stack[|stack| - 1];
      frame := frame.(items := frame.items + 1);
      TopOfWithTop(Abstract(), frame);
      stack := front + [frame];
      if frame.items > MAXIMUM_OBJECT_ENTRIES {
        ok := Refuse(ValidationError);
        return;
      }
      if !ShortText(key) {
        ok := Refuse(ValidationError);
        return;
      }
      if key in frame.keys {
        ok := Refuse(SyntaxError);
        return;
      }
      stack := front + [frame.(keys := frame.keys + {key})];
      return true;
    }

    method EndContainer(isObject: bool) returns (ok: bool)
      modifies this
      ensures Fed(Abstract(), ok) == FeedEnd(old(Abstract()), isObject)
    {
      if stack == [] || stack[|stack| - 1].isObject != isObject {
        ok := Refuse(SyntaxError);
        return;
      }
      stack := stack[..|stack| - 1];
      return true;
    }

    /** The reader's call for one event. */
    method Handle(e: Event) returns (ok: bool)
      modifies this
      ensures Fed(Abstract(), ok) == Feed(old(Abstract()), e)
    {
      hide FeedScalar, FeedStart, FeedKey, FeedEnd, ShortText;
      match e {
        case FloatEvent(finite) => ok := NumberFloat(finite);
        case StringEvent(text) => ok := StringValue(text);
        case BinaryEvent => ok := Refuse(SyntaxError);
        case StartObject(elements) => ok := StartContainer(true, elements, MAXIMUM_OBJECT_ENTRIES);
        case KeyEvent(key) => ok := Key(key);
        case EndObject => ok := EndContainer(true);
        case StartArray(elements) => ok := StartContainer(false, elements, MAXIMUM_ARRAY_ITEMS);
        case EndArray => ok := EndContainer(false);
        case _ => ok := Scalar();
      }
    }
  }

  /** Reading a document through the automaton. */
  method CheckEvents(t: Json) returns (accepted: bool)
    ensures accepted <==> WithinBounds(t)
  {
    SaxAcceptsExactlyBounds(t);
    var sax := new ThemeBoundsSax();
    var events := Events(t);
    assert events[0..] == events;
    hide Feed, Events;
    for i := 0 to |events|
      invariant FeedAll(START, events) == FeedAll(sax.Abstract(), events[i..])
    {
      assert events[i..][1..] == events[i + 1..];
      var ok := sax.Handle(events[i]);
      if !ok {
        return false;
      }
    }
    return true;
  }

  // ---------------------------------------------------------------- the tree pass

  /** The bounds that the later pass looks at: no keys, and no numbers. */
  predicate TreeFits(t: Json, depth: nat)
    decreases t
  {
    && depth <= MAXIMUM_NESTING
    && match t
       case String(text) => ShortText(text)
       case Array(items) => |items| <= MAXIMUM_ARRAY_ITEMS && forall i :: 0 <= i < |items| ==>
         TreeFits(items[i], depth + 1)
       case Object(members) =>
         |members| <= MAXIMUM_OBJECT_ENTRIES && forall i :: 0 <= i < |members| ==> TreeFits(members[i].value, depth + 1)
       case _ => true
  }

  lemma {:induction false} NodeCountIsPositive(t: Json)
    ensures NodeCount(t) >= 1
  {
  }

  lemma {:induction false} ItemNodesOfMore(items: seq<Json>, i: nat)
    requires i < |items|
    ensures ItemNodes(items[i..]) == NodeCount(items[i]) + ItemNodes(items[i + 1..])
  {
    assert items[i..][1..] == items[i + 1..];
  }

  lemma {:induction false} MemberNodesOfMore(members: seq<Member>, i: nat)
    requires i < |members|
    ensures MemberNodes(members[i..]) == NodeCount(members[i].value) + MemberNodes(members[i + 1..])
  {
    assert members[i..][1..] == members[i + 1..];
  }

  /** The recursive pass, with the count of nodes handed from call to call. */
  method ValidateTreeBounds(node: Json, depth: nat, nodes: nat) returns (ok: bool, counted: nat)
    requires nodes <= MAXIMUM_NODES
    ensures ok <==> nodes + NodeCount(node) <= MAXIMUM_NODES && TreeFits(node, depth)
    ensures ok ==> counted == nodes + NodeCount(node)
    decreases node, 1
  {
    counted := nodes + 1;
    NodeCountIsPositive(node);
    if counted > MAXIMUM_NODES {
      return false, counted;
    }
    if depth > MAXIMUM_NESTING {
      return false, counted;
    }
    match node {
      case Object(members) =>
        if |members| > MAXIMUM_OBJECT_ENTRIES {
          return false, counted;
        }
        ok, counted := ValidateMembers(members, depth + 1, counted);
      case Array(items) =>
        if |items| > MAXIMUM_ARRAY_ITEMS {
          return false, counted;
        }
        ok, counted := ValidateItems(items, depth + 1, counted);
      case String(text) =>
        ok := Utf8.CodePointCount(BytesOf(text)) <= MAXIMUM_STRING_CODE_POINTS;
      case _ =>
        ok := true;
    }
  }

  method ValidateItems(items: seq<Json>, depth: nat, nodes: nat) returns (ok: bool, counted: nat)
    requires nodes <= MAXIMUM_NODES
    ensures ok
        <==> nodes + ItemNodes(items) <= MAXIMUM_NODES && forall i :: 0 <= i < |items| ==> TreeFits(items[i], depth)
    ensures ok ==> counted == nodes + ItemNodes(items)
    decreases items, 0
  {
    counted := nodes;
    assert items[0..] == items;
    hide NodeCount, TreeFits;
    for i := 0 to |items|
      invariant counted <= MAXIMUM_NODES && counted + ItemNodes(items[i..]) == nodes + ItemNodes(items)
      invariant forall k :: 0 <= k < i ==> TreeFits(items[k], depth)
    {
      ItemNodesOfMore(items, i);
      ok, counted := ValidateTreeBounds(items[i], depth, counted);
      if !ok {
        return;
      }
    }
    ok := true;
  }

  method ValidateMembers(members: seq<Member>, depth: nat, nodes: nat) returns (ok: bool, counted: nat)
    requires nodes <= MAXIMUM_NODES
    ensures ok
        <==> nodes + MemberNodes(members) <= MAXIMUM_NODES && forall i :: 0 <= i < |members| ==>
          TreeFits(members[i].value, depth)
    ensures ok ==> counted == nodes + MemberNodes(members)
    decreases members, 0
  {
    counted := nodes;
    assert members[0..] == members;
    hide NodeCount, TreeFits;
    for i := 0 to |members|
      invariant counted <= MAXIMUM_NODES && counted + MemberNodes(members[i..]) == nodes + MemberNodes(members)
      invariant forall k :: 0 <= k < i ==> TreeFits(members[k].value, depth)
    {
      MemberNodesOfMore(members, i);
      ok, counted := ValidateTreeBounds(members[i].value, depth, counted);
      if !ok {
        return;
      }
    }
    ok := true;
  }

  predicate TreeAccepts(t: Json) {
    NodeCount(t) <= MAXIMUM_NODES && TreeFits(t, 0)
  }

  /** What only the automaton looks at. */
  predicate CleanText(t: Json)
    decreases t
  {
    match t
    case Float(finite) => finite
    case Binary => false
    case Array(items) => forall i :: 0 <= i < |items| ==> CleanText(items[i])
    case Object(members) =>
      DistinctKeys(members) && ShortKeys(members) && forall i :: 0 <= i < |members| ==> CleanText(members[i].value)
    case _ => true
  }

  lemma {:induction false} FitsSplits(t: Json, depth: nat)
    ensures Fits(t, depth) <==> TreeFits(t, depth) && CleanText(t)
    decreases t
  {
    match t {
      case Array(items) =>
        forall i | 0 <= i < |items|
          ensures Fits(items[i], depth + 1) <==> TreeFits(items[i], depth + 1) && CleanText(items[i]) {
          FitsSplits(items[i], depth + 1);
        }
      case Object(members) =>
        forall i | 0 <= i < |members|
          ensures Fits(members[i].value, depth + 1)
              <==> TreeFits(members[i].value, depth + 1) && CleanText(members[i].value) {
          FitsSplits(members[i].value, depth + 1);
        }
      case _ =>
    }
  }

  // ---------------------------------------------------------------- the tree that the reader builds

  predicate MemberLess(a: Member, b: Member) {
    LexLess(a.key, b.key)
  }

  /** Objects are kept sorted by key; this is the tree of a document whose keys are distinct. */
  function Dom(t: Json): Json
    decreases t
  {
    match t
    case Array(items) => Array(DomItems(items))
    case Object(members) => Object(Sort(MemberLess, DomMembers(members)))
    case _ => t
  }

  function DomItems(items: seq<Json>): (r: seq<Json>)
    ensures |r| == |items|
    decreases items
  {
    if items == [] then [] else [Dom(items[0])] + DomItems(items[1..])
  }

  function DomMembers(members: seq<Member>): (r: seq<Member>)
    ensures |r| == |members|
    decreases members
  {
    if members == [] then [] else [Member(members[0].key, Dom(members[0].value))] + DomMembers(members[1..])
  }

  predicate AllTreeFit(members: seq<Member>, depth: nat) {
    forall i :: 0 <= i < |members| ==> TreeFits(members[i].value, depth)
  }

  lemma {:induction false} MemberNodesAppend(a: seq<Member>, b: seq<Member>)
    ensures MemberNodes(a + b) == MemberNodes(a) + MemberNodes(b)
  {
    if a == [] {
      assert a + b == b;
    } else {
      assert (a + b)[1..] == a[1..] + b;
      MemberNodesAppend(a[1..], b);
    }
  }

  lemma {:induction false} SortingKeepsMembers(members: seq<Member>, depth: nat)
    ensures MemberNodes(Sort(MemberLess, members)) == MemberNodes(members)
    ensures AllTreeFit(Sort(MemberLess, members), depth) <==> AllTreeFit(members, depth)
    decreases |members|
  {
    hide AllTreeFit, MemberNodes, MemberLess;
    if members != [] {
      var front, last := members[..|members| - 1], members[|members| - 1];
      SortingKeepsMembers(front, depth);
      var sorted := Sort(MemberLess, front);
      var p := LowerBound(MemberLess, sorted, last);
      assert members == front + [last] && sorted == sorted[..p] + sorted[p..];
      MemberNodesAppend(front, [last]);
      MemberNodesAppend(sorted[..p], sorted[p..]);
      MemberNodesAppend(sorted[..p] + [last], sorted[p..]);
      MemberNodesAppend(sorted[..p], [last]);
      FitAppend(front, [last], depth);
      FitAppend(sorted[..p], sorted[p..], depth);
      FitAppend(sorted[..p] + [last], sorted[p..], depth);
      FitAppend(sorted[..p], [last], depth);
    }
  }

  lemma {:induction false} FitAppend(a: seq<Member>, b: seq<Member>, depth: nat)
    ensures AllTreeFit(a + b, depth) <==> AllTreeFit(a, depth) && AllTreeFit(b, depth)
  {
    hide TreeFits;
    assert forall i :: 0 <= i < |a| ==> (a + b)[i] == a[i];
    assert forall i :: 0 <= i < |b| ==> (a + b)[|a| + i] == b[i];
  }

  lemma {:induction false} DomKeepsBounds(t: Json, depth: nat)
    ensures NodeCount(Dom(t)) == NodeCount(t) && (TreeFits(Dom(t), depth) <==> TreeFits(t, depth))
    decreases t, 1
  {
    match t {
      case Array(items) => DomItemsKeepBounds(items, depth + 1);
      case Object(members) =>
        DomMembersKeepBounds(members, depth + 1);
        SortingKeepsMembers(DomMembers(members), depth + 1);
        hide Sort, DomMembers;
      case _ =>
    }
  }

  lemma {:induction false} DomItemsKeepBounds(items: seq<Json>, depth: nat)
    ensures ItemNodes(DomItems(items)) == ItemNodes(items)
    ensures (forall i :: 0 <= i < |items| ==> TreeFits(DomItems(items)[i], depth))
        <==> (forall i :: 0 <= i < |items| ==> TreeFits(items[i], depth))
    decreases items, 0
  {
    if items != [] {
      var rest := items[1..];
      DomKeepsBounds(items[0], depth);
      DomItemsKeepBounds(rest, depth);
      hide TreeFits, NodeCount, Dom;
      assert forall i :: 0 < i < |items| ==> items[i] == rest[i - 1] && DomItems(items)[i] == DomItems(rest)[i - 1];
      assert forall i :: 0 <= i < |rest| ==> rest[i] == items[i + 1] && DomItems(rest)[i] == DomItems(items)[i + 1];
    }
  }

  lemma {:induction false} DomMembersKeepBounds(members: seq<Member>, depth: nat)
    ensures MemberNodes(DomMembers(members)) == MemberNodes(members)
    ensures AllTreeFit(DomMembers(members), depth) <==> AllTreeFit(members, depth)
    decreases members, 0
  {
    if members != [] {
      var rest := members[1..];
      DomKeepsBounds(members[0].value, depth);
      DomMembersKeepBounds(rest, depth);
      var first := Member(members[0].key, Dom(members[0].value));
      assert members == [members[0]] + rest;
      FitAppend([members[0]], rest, depth);
      FitAppend([first], DomMembers(rest), depth);
      hide TreeFits, NodeCount, Dom;
      assert AllTreeFit([first], depth) <==> TreeFits([first][0].value, depth);
      assert AllTreeFit([members[0]], depth) <==> TreeFits([members[0]][0].value, depth);
    }
  }

  /**
   The automaton accepts a document exactly when the tree pass accepts its tree and the text is clean, that
   is, keys are distinct and short and numbers finite; so the tree pass never rejects an accepted document.
   */
  lemma {:induction false} PassesAgree(t: Json)
    ensures SaxAccepts(t) <==> TreeAccepts(Dom(t)) && CleanText(t)
  {
    SaxAcceptsExactlyBounds(t);
    FitsSplits(t, 0);
    DomKeepsBounds(t, 0);
    hide Fits, TreeFits, Dom, NodeCount, CleanText, SaxAccepts;
  }
}
