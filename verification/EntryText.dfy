/**
 Lines, values, string escapes and string lists of desktop-entry documents.

 The reference is a grammar: a value is a row of units, each a plain byte or a backslash followed by a
 letter; a list is a row of nonempty items separated by plain semicolons, the last one optionally
 terminated. Decoding is proved to accept exactly what the grammar renders and to return its meaning.
 */
module EntryText {
  import opened Foundation
  import opened Utf8

  const BACKSLASH: Byte := 0x5C
  const SEMICOLON: Byte := 0x3B
  const SPACE: Byte := 0x20
  const TAB: Byte := 0x09
  const NEWLINE: Byte := 0x0A
  const RETURN: Byte := 0x0D
  const EQUALS: Byte := 0x3D
  const LETTER_S: Byte := 0x73
  const LETTER_N: Byte := 0x6E
  const LETTER_T: Byte := 0x74
  const LETTER_R: Byte := 0x72

  const MAXIMUM_LIST_ITEMS: nat := 1024
  const MAXIMUM_LINES: nat := 16384
  const MAXIMUM_LINE_BYTES: nat := 65536

  // ---------------------------------------------------------------- the grammar of values

  datatype Unit = Plain(b: Byte) | Escape(letter: Byte)

  function UnitBytes(u: Unit): Bytes {
    match u
    case Plain(b) => [b]
    case Escape(letter) => [BACKSLASH, letter]
  }

  function Render(us: seq<Unit>): Bytes {
    if us == [] then [] else UnitBytes(us[0]) + Render(us[1..])
  }

  /** What an escape letter stands for; None for a letter the specification does not define. */
  function Denoted(letter: Byte, allowEscapedSemicolon: bool): Option<Byte> {
    if letter == LETTER_S then Some(SPACE)
    else if letter == LETTER_N then Some(NEWLINE)
    else if letter == LETTER_T then Some(TAB)
    else if letter == LETTER_R then Some(RETURN)
    else if letter == BACKSLASH then Some(BACKSLASH)
    else if letter == SEMICOLON && allowEscapedSemicolon then Some(SEMICOLON)
    else None
  }

  predicate Known(u: Unit, allowEscapedSemicolon: bool) {
    u.Escape? ==> Denoted(u.letter, allowEscapedSemicolon).Some?
  }

  predicate AllKnown(us: seq<Unit>, allowEscapedSemicolon: bool) {
    forall i :: 0 <= i < |us| ==> Known(us[i], allowEscapedSemicolon)
  }

  /** The units a scan can produce: a plain byte is never a backslash. */
  predicate Scanned(us: seq<Unit>) {
    forall i :: 0 <= i < |us| ==> us[i] != Plain(BACKSLASH)
  }

  function Meaning(us: seq<Unit>, allowEscapedSemicolon: bool): Bytes
    requires AllKnown(us, allowEscapedSemicolon)
  {
    if us == [] then []
    else
      var first := match us[0] case Plain(b) => b case Escape(l) => Denoted(l, allowEscapedSemicolon).value;
      [first] + Meaning(us[1..], allowEscapedSemicolon)
  }

  lemma {:induction false} RenderAppend(us: seq<Unit>, vs: seq<Unit>)
    ensures Render(us + vs) == Render(us) + Render(vs)
  {
    if us == [] {
      assert us + vs == vs;
    } else {
      assert (us + vs)[1..] == us[1..] + vs;
      RenderAppend(us[1..], vs);
    }
  }

  lemma {:induction false} RenderSnoc(us: seq<Unit>, u: Unit)
    ensures Render(us + [u]) == Render(us) + UnitBytes(u)
  {
    RenderAppend(us, [u]);
    assert Render([u]) == UnitBytes(u) + Render([]);
  }

  // ---------------------------------------------------------------- decodeString

  /** Reading a value from the front; the specification function of the decoding loop. */
  function Unescape(s: Bytes, semi: bool): Option<Bytes> {
    if s == [] then Some([])
    else if s[0] != BACKSLASH then
      match Unescape(s[1..], semi)
      case None => None
      case Some(rest) => Some([s[0]] + rest)
    else if |s| == 1 then None
    else
      match Denoted(s[1], semi)
      case None => None
      case Some(b) =>
        match Unescape(s[2..], semi)
        case None => None
        case Some(rest) => Some([b] + rest)
  }

  function Prefixed(decoded: Bytes, rest: Option<Bytes>): Option<Bytes> {
    match rest case None => None case Some(r) => Some(decoded + r)
  }

  method DecodeString(value: Bytes, allowEscapedSemicolon: bool) returns (r: Result<Bytes>)
    ensures r == match Unescape(value, allowEscapedSemicolon)
                 case Some(decoded) => Success(decoded)
                 case None => Failure(SyntaxError)
  {
    var decoded: Bytes := [];
    var index := 0;
    assert value[0..] == value;
    PrefixedNothing(Unescape(value, allowEscapedSemicolon));
    while index < |value|
      invariant index <= |value|
      invariant Unescape(value, allowEscapedSemicolon)
             == Prefixed(decoded, Unescape(value[index..], allowEscapedSemicolon))
    {
      ghost var s := value[index..];
      ghost var before := decoded;
      if value[index] != BACKSLASH {
        decoded := decoded + [value[index]];
        assert s[1..] == value[index + 1..];
        AppendPrefixed(before, [s[0]], Unescape(s[1..], allowEscapedSemicolon));
        index := index + 1;
        continue;
      }
      index := index + 1;
      if index >= |value| {
        return Failure(SyntaxError);
      }
      assert s[1] == value[index] && s[2..] == value[index + 1..];
      if value[index] == LETTER_S {
        decoded := decoded + [SPACE];
      } else if value[index] == LETTER_N {
        decoded := decoded + [NEWLINE];
      } else if value[index] == LETTER_T {
        decoded := decoded + [TAB];
      } else if value[index] == LETTER_R {
        decoded := decoded + [RETURN];
      } else if value[index] == BACKSLASH {
        decoded := decoded + [BACKSLASH];
      } else if value[index] == SEMICOLON {
        if !allowEscapedSemicolon {
          return Failure(SyntaxError);
        }
        decoded := decoded + [SEMICOLON];
      } else {
        return Failure(SyntaxError);
      }
      AppendPrefixed(before, [decoded[|decoded| - 1]], Unescape(s[2..], allowEscapedSemicolon));
      index := index + 1;
    }
    assert decoded + [] == decoded;
    return Success(decoded);
  }

  lemma {:induction false} PrefixedNothing(rest: Option<Bytes>)
    ensures Prefixed([], rest) == rest
  {
    if rest.Some? {
      assert [] + rest.value == rest.value;
    }
  }

  lemma {:induction false} AppendPrefixed(a: Bytes, b: Bytes, rest: Option<Bytes>)
    ensures Prefixed(a, Prefixed(b, rest)) == Prefixed(a + b, rest)
  {
    if rest.Some? {
      assert a + (b + rest.value) == a + b + rest.value;
    }
  }

  /** Scanned units decode to their meaning, and fail exactly when a letter is undefined. */
  lemma {:induction false} UnescapeRendered(us: seq<Unit>, semi: bool)
    requires Scanned(us)
    ensures Unescape(Render(us), semi) == if AllKnown(us, semi) then Some(Meaning(us, semi)) else None
  {
    if us != [] {
      UnescapeRendered(us[1..], semi);
      var s := Render(us);
      if us[0].Plain? {
        assert s[1..] == Render(us[1..]);
      } else {
        assert s[2..] == Render(us[1..]);
      }
      assert AllKnown(us, semi) <==> Known(us[0], semi) && AllKnown(us[1..], semi);
    }
  }

  /** Every value that decodes is a row of known units with that meaning. */
  lemma {:induction false} DecodedIsRendered(s: Bytes, semi: bool) returns (us: seq<Unit>)
    requires Unescape(s, semi).Some?
    ensures Scanned(us) && AllKnown(us, semi)
    ensures Render(us) == s && Meaning(us, semi) == Unescape(s, semi).value
  {
    if s == [] {
      us := [];
    } else if s[0] != BACKSLASH {
      var rest := DecodedIsRendered(s[1..], semi);
      us := [Plain(s[0])] + rest;
      assert us[1..] == rest;
    } else {
      var rest := DecodedIsRendered(s[2..], semi);
      us := [Escape(s[1])] + rest;
      assert us[1..] == rest;
    }
  }

  ghost predicate ValueGrammar(s: Bytes, semi: bool, decoded: Bytes, us: seq<Unit>) {
    Scanned(us) && AllKnown(us, semi) && Render(us) == s && Meaning(us, semi) == decoded
  }

  /** decodeString accepts exactly the rows of known units, and returns what they mean. */
  lemma {:induction false} DecodeStringIsTheGrammar(s: Bytes, semi: bool, decoded: Bytes)
    ensures Unescape(s, semi) == Some(decoded) <==> exists us :: ValueGrammar(s, semi, decoded, us)
  {
    if Unescape(s, semi) == Some(decoded) {
      var us := DecodedIsRendered(s, semi);
      assert ValueGrammar(s, semi, decoded, us);
    }
    forall us | ValueGrammar(s, semi, decoded, us) ensures Unescape(s, semi) == Some(decoded) {
      UnescapeRendered(us, semi);
    }
  }

  // ---------------------------------------------------------------- decodeList

  /** The decoded items after one more item, or the error that stops the list. */
  function Finish(item: Bytes, items: seq<Bytes>): Result<seq<Bytes>> {
    match Unescape(item, true)
    case None => Failure(SyntaxError)
    case Some(decoded) =>
      if |items| + 1 > MAXIMUM_LIST_ITEMS then Failure(TooLarge) else Success(items + [decoded])
  }

  /** The scan of decodeList over the rest of the value. */
  function ListScan(s: Bytes, item: seq<Unit>, escaped: bool, items: seq<Bytes>): Result<seq<Bytes>> {
    if s == [] then
      if escaped then Failure(SyntaxError)
      else if item != [] then Finish(Render(item), items)
      else Success(items)
    else if escaped then ListScan(s[1..], item + [Escape(s[0])], false, items)
    else if s[0] == BACKSLASH then ListScan(s[1..], item, true, items)
    else if s[0] != SEMICOLON then ListScan(s[1..], item + [Plain(s[0])], false, items)
    else if item == [] then Failure(ValidationError)
    else
      match Finish(Render(item), items)
      case Failure(e) => Failure(e)
      case Success(more) => ListScan(s[1..], [], false, more)
  }

  method DecodeList(value: Bytes) returns (r: Result<seq<Bytes>>)
    ensures r == ListScan(value, [], false, [])
  {
    var items: seq<Bytes> := [];
    if value == [] {
      return Success(items);
    }
    var encodedItem: Bytes := [];
    var escaped := false;
    ghost var item: seq<Unit> := [];
    assert value[0..] == value;
    for i := 0 to |value|
      invariant encodedItem == Render(item) && (encodedItem == [] <==> item == [])
      invariant ListScan(value, [], false, []) == ListScan(value[i..], item, escaped, items)
    {
      var character := value[i];
      assert value[i..][1..] == value[i + 1..];
      if escaped {
        RenderSnoc(item, Escape(character));
        encodedItem := encodedItem + [BACKSLASH, character];
        item := item + [Escape(character)];
        escaped := false;
        continue;
      }
      if character == BACKSLASH {
        escaped := true;
        continue;
      }
      if character != SEMICOLON {
        RenderSnoc(item, Plain(character));
        encodedItem := encodedItem + [character];
        item := item + [Plain(character)];
        continue;
      }
      if encodedItem == [] {
        return Failure(ValidationError);
      }
      var decoded := DecodeString(encodedItem, true);
      if decoded.Failure? {
        return Failure(decoded.error);
      }
      items := items + [decoded.value];
      if |items| > MAXIMUM_LIST_ITEMS {
        return Failure(TooLarge);
      }
      encodedItem := [];
      item := [];
    }
    if escaped {
      return Failure(SyntaxError);
    }
    if encodedItem != [] {
      var decoded := DecodeString(encodedItem, true);
      if decoded.Failure? {
        return Failure(decoded.error);
      }
      items := items + [decoded.value];
      if |items| > MAXIMUM_LIST_ITEMS {
        return Failure(TooLarge);
      }
    }
    return Success(items);
  }

  /** One list item: known units, at least one, no plain semicolon. */
  predicate Item(us: seq<Unit>) {
    us != [] && Scanned(us) && AllKnown(us, true) && Plain(SEMICOLON) !in us
  }

  predicate AllItems(uss: seq<seq<Unit>>) {
    forall i :: 0 <= i < |uss| ==> Item(uss[i])
  }

  /** The items one after the other, each closed by a semicolon; `last` is an unterminated last item. */
  function RenderList(closed: seq<seq<Unit>>, last: seq<Unit>): Bytes {
    if closed == [] then Render(last)
    else Render(closed[0]) + [SEMICOLON] + RenderList(closed[1..], last)
  }

  function Meanings(uss: seq<seq<Unit>>): (r: seq<Bytes>)
    requires AllItems(uss)
    ensures |r| == |uss|
  {
    if uss == [] then [] else [Meaning(uss[0], true)] + Meanings(uss[1..])
  }

  ghost predicate ListGrammar(s: Bytes, items: seq<Bytes>, closed: seq<seq<Unit>>, last: seq<Unit>) {
    && AllItems(closed) && (last == [] || Item(last))
    && s == RenderList(closed, last)
    && items == Meanings(closed) + (if last == [] then [] else [Meaning(last, true)])
  }

  lemma {:induction false} ScanUnit(u: Unit, tail: Bytes, item: seq<Unit>, items: seq<Bytes>)
    requires u != Plain(BACKSLASH) && u != Plain(SEMICOLON)
    ensures ListScan(UnitBytes(u) + tail, item, false, items) == ListScan(tail, item + [u], false, items)
  {
    hide Finish;
    var s := UnitBytes(u) + tail;
    if u.Plain? {
      assert s[0] == u.b && s[1..] == tail;
    } else {
      assert s[0] == BACKSLASH && s[1..][0] == u.letter && s[1..][1..] == tail;
    }
  }

  lemma {:induction false} ScanUnits(us: seq<Unit>, rest: Bytes, item: seq<Unit>, items: seq<Bytes>)
    requires Scanned(us) && Plain(SEMICOLON) !in us
    ensures ListScan(Render(us) + rest, item, false, items) == ListScan(rest, item + us, false, items)
  {
    hide Finish, Denoted;
    if us == [] {
      assert Render(us) + rest == rest && item + us == item;
    } else {
      var tail := Render(us[1..]) + rest;
      assert Render(us) + rest == UnitBytes(us[0]) + tail;
      ScanUnit(us[0], tail, item, items);
      ScanUnits(us[1..], rest, item + [us[0]], items);
      assert item + [us[0]] + us[1..] == item + us;
    }
  }

  lemma {:induction false} ScanList(closed: seq<seq<Unit>>, last: seq<Unit>, items: seq<Bytes>)
    requires AllItems(closed) && (last == [] || Item(last))
    requires |items| + |closed| + (if last == [] then 0 else 1) <= MAXIMUM_LIST_ITEMS
    ensures ListScan(RenderList(closed, last), [], false, items)
         == Success(items + Meanings(closed) + (if last == [] then [] else [Meaning(last, true)]))
  {
    hide Unescape, Denoted, Known;
    if closed == [] {
      ScanUnits(last, [], [], items);
      assert Render(last) + [] == Render(last) && [] + last == last;
      UnescapeRendered(last, true);
      assert items + [] == items;
    } else {
      var us := closed[0];
      var rest := RenderList(closed[1..], last);
      assert closed == [us] + closed[1..];
      assert RenderList(closed, last) == Render(us) + ([SEMICOLON] + rest);
      hide RenderList, Meaning, Meanings, Render;
      ScanUnits(us, [SEMICOLON] + rest, [], items);
      assert [] + us == us && ([SEMICOLON] + rest)[1..] == rest;
      UnescapeRendered(us, true);
      var more := items + [Meaning(us, true)];
      ScanList(closed[1..], last, more);
      OneMoreItem(us, closed[1..], last, items);
    }
  }

  lemma {:induction false} OneMoreItem(item: seq<Unit>, rest: seq<seq<Unit>>, last: seq<Unit>, items: seq<Bytes>)
    requires Item(item) && AllItems(rest)
    ensures AllItems([item] + rest)
    ensures RenderList([item] + rest, last) == Render(item) + [SEMICOLON] + RenderList(rest, last)
    ensures items + Meanings([item] + rest) == items + [Meaning(item, true)] + Meanings(rest)
  {
    hide Item;
    assert ([item] + rest)[1..] == rest;
  }

  /** The scan reads one unit that does not close the item. */
  lemma {:induction false} NextUnit(s: Bytes, item: seq<Unit>, items: seq<Bytes>) returns (u: Unit, tail: Bytes)
    requires s != [] && s[0] != SEMICOLON && ListScan(s, item, false, items).Success?
    ensures u != Plain(BACKSLASH) && u != Plain(SEMICOLON)
    ensures |tail| < |s|
    ensures ListScan(tail, item + [u], false, items) == ListScan(s, item, false, items)
    ensures Render(item + [u]) + tail == Render(item) + s
  {
    hide Finish;
    u := if s[0] == BACKSLASH then Escape(s[1]) else Plain(s[0]);
    tail := if s[0] == BACKSLASH then s[2..] else s[1..];
    assert s == UnitBytes(u) + tail;
    ScanUnit(u, tail, item, items);
    RenderSnoc(item, u);
  }

  /** The scan closes an item. */
  lemma {:induction false} CloseItem(s: Bytes, item: seq<Unit>, items: seq<Bytes>)
    requires Scanned(item) && Plain(SEMICOLON) !in item
    requires s != [] && s[0] == SEMICOLON && ListScan(s, item, false, items).Success?
    ensures Item(item)
    ensures ListScan(s[1..], [], false, items + [Meaning(item, true)]) == ListScan(s, item, false, items)
  {
    hide Unescape, Denoted, Known, Meaning;
    UnescapeRendered(item, true);
  }

  /** The item read so far and the rest of the value were written as these items, which mean `out`. */
  ghost predicate Written(item: seq<Unit>, s: Bytes, items: seq<Bytes>, out: seq<Bytes>, closed: seq<seq<Unit>>,
      last: seq<Unit>) {
    && AllItems(closed) && (last == [] || Item(last))
    && Render(item) + s == RenderList(closed, last)
    && out == items + Meanings(closed) + (if last == [] then [] else [Meaning(last, true)])
  }

  lemma {:induction false} WrittenEnd(item: seq<Unit>, items: seq<Bytes>)
    requires Scanned(item) && Plain(SEMICOLON) !in item && ListScan([], item, false, items).Success?
    ensures Written(item, [], items, ListScan([], item, false, items).value, [], item)
  {
    hide Unescape, Denoted, Known, Meaning;
    UnescapeRendered(item, true);
    assert Render(item) + [] == Render(item);
    assert items + [] == items;
  }

  lemma {:induction false} Associate(a: Bytes, b: Bytes, c: Bytes)
    ensures a + (b + c) == a + b + c
  {
  }

  lemma {:induction false} WrittenItem(s: Bytes, item: seq<Unit>, items: seq<Bytes>, out: seq<Bytes>,
      rest: seq<seq<Unit>>, last: seq<Unit>)
    requires s != [] && s[0] == SEMICOLON && Item(item)
    requires Written([], s[1..], items + [Meaning(item, true)], out, rest, last)
    ensures Written(item, s, items, out, [item] + rest, last)
  {
    assert Render([]) + s[1..] == s[1..];
    hide AllItems, Meaning, Meanings, Render, RenderList, Item;
    OneMoreItem(item, rest, last, items);
    assert s == [SEMICOLON] + s[1..];
    Associate(Render(item), [SEMICOLON], s[1..]);
  }

  /** Every accepted list was written by the grammar. */
  lemma {:induction false} AcceptedListIsRendered(s: Bytes, item: seq<Unit>, items: seq<Bytes>)
      returns (closed: seq<seq<Unit>>, last: seq<Unit>)
    requires Scanned(item) && Plain(SEMICOLON) !in item
    requires ListScan(s, item, false, items).Success?
    ensures Written(item, s, items, ListScan(s, item, false, items).value, closed, last)
    decreases |s|
  {
    hide ListScan, AllKnown, Known, Meaning;
    if s == [] {
      closed, last := [], item;
      WrittenEnd(item, items);
    } else if s[0] == SEMICOLON {
      CloseItem(s, item, items);
      var rest;
      rest, last := AcceptedListIsRendered(s[1..], [], items + [Meaning(item, true)]);
      closed := [item] + rest;
      WrittenItem(s, item, items, ListScan(s, item, false, items).value, rest, last);
    } else {
      var u, tail := NextUnit(s, item, items);
      closed, last := AcceptedListIsRendered(tail, item + [u], items);
    }
  }

  /**
   decodeList accepts exactly the lists the grammar writes with at most 1024 items, and returns the
   meanings of their items in order.
   */
  lemma {:induction false} DecodeListIsTheGrammar(s: Bytes, items: seq<Bytes>)
    ensures ListScan(s, [], false, []) == Success(items)
       <==> |items| <= MAXIMUM_LIST_ITEMS && exists closed, last :: ListGrammar(s, items, closed, last)
  {
    if ListScan(s, [], false, []) == Success(items) {
      var closed, last := AcceptedListIsRendered(s, [], []);
      assert Render([]) + s == s;
      assert [] + Meanings(closed) == Meanings(closed);
      assert ListGrammar(s, items, closed, last);
      ScanStaysWithinLimit(s, [], false, []);
    }
    if |items| <= MAXIMUM_LIST_ITEMS && exists closed, last :: ListGrammar(s, items, closed, last) {
      var closed, last :| ListGrammar(s, items, closed, last);
      ScanList(closed, last, []);
      assert [] + Meanings(closed) == Meanings(closed);
    }
  }

  lemma {:induction false} ScanStaysWithinLimit(s: Bytes, item: seq<Unit>, escaped: bool, items: seq<Bytes>)
    requires |items| <= MAXIMUM_LIST_ITEMS
    ensures ListScan(s, item, escaped, items).Success? ==>
      |ListScan(s, item, escaped, items).value| <= MAXIMUM_LIST_ITEMS
    decreases |s|
  {
    if s != [] {
      if escaped {
        ScanStaysWithinLimit(s[1..], item + [Escape(s[0])], false, items);
      } else if s[0] == BACKSLASH {
        ScanStaysWithinLimit(s[1..], item, true, items);
      } else if s[0] != SEMICOLON {
        ScanStaysWithinLimit(s[1..], item + [Plain(s[0])], false, items);
      } else if item != [] && Finish(Render(item), items).Success? {
        ScanStaysWithinLimit(s[1..], [], false, Finish(Render(item), items).value);
      }
    }
  }

  // ---------------------------------------------------------------- the round trip

  /** The escape the specification gives a byte of a list item. */
  function EscapeByte(b: Byte): Unit {
    if b == BACKSLASH then Escape(BACKSLASH)
    else if b == SEMICOLON then Escape(SEMICOLON)
    else if b == NEWLINE then Escape(LETTER_N)
    else if b == TAB then Escape(LETTER_T)
    else if b == RETURN then Escape(LETTER_R)
    else if b == SPACE then Escape(LETTER_S)
    else Plain(b)
  }

  function EscapeItem(item: Bytes): (us: seq<Unit>)
    ensures |us| == |item|
    ensures forall i :: 0 <= i < |us| ==> us[i] == EscapeByte(item[i])
  {
    seq(|item|, i requires 0 <= i < |item| => EscapeByte(item[i]))
  }

  function EscapeItems(items: seq<Bytes>): (uss: seq<seq<Unit>>)
    ensures |uss| == |items|
    ensures forall i :: 0 <= i < |uss| ==> uss[i] == EscapeItem(items[i])
  {
    seq(|items|, i requires 0 <= i < |items| => EscapeItem(items[i]))
  }

  /** The list escaping of section 4 of the Desktop Entry Specification 1.5. */
  function EncodeList(items: seq<Bytes>): Bytes {
    RenderList(EscapeItems(items), [])
  }

  lemma {:induction false} EscapedItemMeansItself(item: Bytes)
    ensures AllKnown(EscapeItem(item), true) && Meaning(EscapeItem(item), true) == item
  {
    var us := EscapeItem(item);
    if item != [] {
      EscapedItemMeansItself(item[1..]);
      assert us[1..] == EscapeItem(item[1..]);
      assert Known(us[0], true);
      assert item == [item[0]] + item[1..];
    }
  }

  /** What becomes of items decoded after others: the first empty item is refused, and so is one too many. */
  function Accepted(items: seq<Bytes>, done: seq<Bytes>): Result<seq<Bytes>>
    decreases |items|
  {
    if items == [] then Success(done)
    else if items[0] == [] then Failure(ValidationError)
    else if |done| + 1 > MAXIMUM_LIST_ITEMS then Failure(TooLarge)
    else Accepted(items[1..], done + [items[0]])
  }

  /** Decoding an encoded list, item by item. */
  lemma {:induction false} EncodedListScans(items: seq<Bytes>, done: seq<Bytes>)
    ensures ListScan(EncodeList(items), [], false, done) == Accepted(items, done)
    decreases |items|
  {
    hide Unescape, Denoted, Known;
    if items == [] {
      assert EncodeList([]) == [];
    } else {
      var us, rest := EscapeItem(items[0]), EncodeList(items[1..]);
      assert EscapeItems(items)[1..] == EscapeItems(items[1..]);
      assert EncodeList(items) == Render(us) + ([SEMICOLON] + rest);
      EscapedItemMeansItself(items[0]);
      hide EscapeItems, EncodeList, Meaning, Render, RenderList;
      ScanUnits(us, [SEMICOLON] + rest, [], done);
      assert [] + us == us && ([SEMICOLON] + rest)[1..] == rest;
      if items[0] != [] {
        UnescapeRendered(us, true);
        EncodedListScans(items[1..], done + [items[0]]);
      }
    }
  }

  lemma {:induction false} AcceptedExactly(items: seq<Bytes>, done: seq<Bytes>)
    requires |done| <= MAXIMUM_LIST_ITEMS
    ensures Accepted(items, done) == Success(done + items)
        <==> |done| + |items| <= MAXIMUM_LIST_ITEMS && forall i :: 0 <= i < |items| ==> items[i] != []
    ensures Accepted(items, done).Success? ==> Accepted(items, done).value == done + items
    decreases |items|
  {
    if items == [] {
      assert done + items == done;
    } else if items[0] != [] && |done| < MAXIMUM_LIST_ITEMS {
      AcceptedExactly(items[1..], done + [items[0]]);
      assert done + [items[0]] + items[1..] == done + items;
      assert forall i :: 0 < i < |items| ==> items[i] == items[1..][i - 1];
    }
  }

  /**
   Decoding undoes the list escaping exactly for lists within the limit that hold no empty item; any other
   list is refused.
   */
  lemma {:induction false} DecodeListUndoesEncodeList(items: seq<Bytes>)
    ensures ListScan(EncodeList(items), [], false, []) == Success(items)
        <==> |items| <= MAXIMUM_LIST_ITEMS && forall i :: 0 <= i < |items| ==> items[i] != []
    ensures ListScan(EncodeList(items), [], false, []).Success? ==>
      ListScan(EncodeList(items), [], false, []).value == items
  {
    EncodedListScans(items, []);
    AcceptedExactly(items, []);
    assert [] + items == items;
  }

  /** The list of one empty item is written as a lone semicolon, which is refused. */
  lemma {:induction false} EmptyItemIsRefused()
    ensures EncodeList([[]]) == [SEMICOLON] && ListScan([SEMICOLON], [], false, []) == Failure(ValidationError)
  {
    EncodedListScans([[]], []);
    assert EscapeItems([[]])[0] == [] && EscapeItems([[]])[1..] == [];
  }

  // ---------------------------------------------------------------- UTF-8 is kept

  /** A unit row that renders well-formed text means well-formed text. */
  lemma {:induction false} MeaningKeepsCodePoints(us: seq<Unit>, semi: bool, cs: seq<Scalar>)
    requires Scanned(us) && AllKnown(us, semi) && Render(us) == EncodeAll(cs)
    ensures WellFormed(Meaning(us, semi))
    decreases |us|
  {
    hide Encode, Denoted, Render, WellFormed;
    if us == [] {
      EmptyIsWellFormed();
    } else if us[0].Escape? {
      EscapeIsTwoCodePoints(us, semi, cs);
      MeaningKeepsCodePoints(us[1..], semi, cs[2..]);
      WellFormedAscii(Denoted(us[0].letter, semi).value);
      WellFormedAppend([Denoted(us[0].letter, semi).value], Meaning(us[1..], semi));
    } else {
      PlainUnitsAreOneCodePoint(us, semi, cs);
      var n := |Encode(cs[0])|;
      MeaningKeepsCodePoints(us[n..], semi, cs[1..]);
      WellFormedAppend(Encode(cs[0]), Meaning(us[n..], semi));
    }
  }

  lemma {:induction false} EmptyIsWellFormed()
    ensures WellFormed([])
  {
    assert EncodeAll([]) == [];
  }

  lemma {:induction false} EscapeIsTwoCodePoints(us: seq<Unit>, semi: bool, cs: seq<Scalar>)
    requires us != [] && us[0].Escape? && Known(us[0], semi) && Render(us) == EncodeAll(cs)
    ensures |cs| >= 2 && Render(us[1..]) == EncodeAll(cs[2..])
    ensures Denoted(us[0].letter, semi).value < 0x80
  {
    EscapeLettersAreAscii(us[0].letter, semi);
    hide Denoted;
    assert cs != [] by { assert EncodeAll([]) == []; }
    FirstAscii(cs, BACKSLASH, [us[0].letter] + Render(us[1..]));
    FirstAscii(cs[1..], us[0].letter, Render(us[1..]));
    assert cs[1..][1..] == cs[2..];
  }

  lemma {:induction false} FirstAscii(cs: seq<Scalar>, b: Byte, rest: Bytes)
    requires EncodeAll(cs) == [b] + rest && b < 0x80
    ensures cs != [] && EncodeAll(cs[1..]) == rest
  {
    assert Encode(cs[0])[0] == ([b] + rest)[0];
    OneByteEncoding(cs[0]);
    hide Encode;
    assert EncodeAll(cs)[1..] == EncodeAll(cs[1..]);
  }

  lemma {:induction false} PlainUnitsAreOneCodePoint(us: seq<Unit>, semi: bool, cs: seq<Scalar>)
    requires us != [] && us[0].Plain? && Scanned(us) && AllKnown(us, semi) && Render(us) == EncodeAll(cs)
    ensures cs != [] && |Encode(cs[0])| <= |us|
    ensures Render(us[|Encode(cs[0])|..]) == EncodeAll(cs[1..])
    ensures Meaning(us, semi) == Encode(cs[0]) + Meaning(us[|Encode(cs[0])|..], semi)
    ensures WellFormed(Encode(cs[0]))
  {
    assert us[0] != Plain(BACKSLASH);
    hide Encode, Known, Denoted, Meaning, Scanned, AllKnown;
    assert Render(us)[0] == us[0].b;
    var e := Encode(cs[0]);
    var rest := EncodeAll(cs[1..]);
    assert EncodeAll(cs) == e + rest;
    hide *;
    assert (e + rest)[0] == e[0];
    NoBackslash(cs[0]);
    OneCodePoint(cs[0]);
    PlainRun(us, semi, e, rest);
  }

  lemma {:induction false} EscapeLettersAreAscii(letter: Byte, semi: bool)
    requires Denoted(letter, semi).Some?
    ensures letter < 0x80 && Denoted(letter, semi).value < 0x80
  {
  }

  lemma {:induction false} NoBackslash(c: Scalar)
    requires Encode(c)[0] != BACKSLASH
    ensures forall i :: 0 <= i < |Encode(c)| ==> Encode(c)[i] != BACKSLASH
  {
    LeadOfEncoding(c);
  }

  lemma {:induction false} OneCodePoint(c: Scalar)
    ensures WellFormed(Encode(c))
  {
    assert EncodeAll([c]) == Encode(c) + EncodeAll([]);
  }

  /** An encoded code point other than a backslash is spelled by that many plain units. */
  lemma {:induction false} PlainRun(us: seq<Unit>, semi: bool, e: Bytes, rest: Bytes)
    requires Scanned(us) && AllKnown(us, semi) && Render(us) == e + rest
    requires forall i :: 0 <= i < |e| ==> e[i] != BACKSLASH
    ensures |e| <= |us|
    ensures Render(us[|e|..]) == rest
    ensures AllKnown(us[|e|..], semi) && Meaning(us, semi) == e + Meaning(us[|e|..], semi)
  {
    hide Denoted, Known;
    if e == [] {
      assert us[0..] == us && e + rest == rest;
    } else {
      assert Render(us)[0] == e[0];
      assert us[0] == Plain(e[0]);
      assert Render(us[1..]) == Render(us)[1..] == e[1..] + rest;
      PlainRun(us[1..], semi, e[1..], rest);
      assert us[1..][|e| - 1..] == us[|e|..];
      hide Render, AllKnown, Scanned;
      assert e == [e[0]] + e[1..];
    }
  }

  /** Decoding a value keeps valid UTF-8 valid, so the control scan of a decoded value is safe. */
  lemma {:induction false} DecodedValueIsWellFormed(s: Bytes, semi: bool)
    requires WellFormed(s) && Unescape(s, semi).Some?
    ensures WellFormed(Unescape(s, semi).value)
  {
    var us := DecodedIsRendered(s, semi);
    var cs: seq<Scalar> :| EncodeAll(cs) == s;
    MeaningKeepsCodePoints(us, semi, cs);
  }

  /** So does decoding a list. */
  lemma {:induction false} DecodedItemsAreWellFormed(s: Bytes, items: seq<Bytes>)
    requires WellFormed(s) && ListScan(s, [], false, []) == Success(items)
    ensures forall i :: 0 <= i < |items| ==> WellFormed(items[i])
  {
    DecodeListIsTheGrammar(s, items);
    var closed, last :| ListGrammar(s, items, closed, last);
    RenderedItemsAreWellFormed(closed, last);
  }

  lemma {:induction false} RenderedItemsAreWellFormed(closed: seq<seq<Unit>>, last: seq<Unit>)
    requires AllItems(closed) && (last == [] || Item(last))
    requires WellFormed(RenderList(closed, last))
    ensures forall i :: 0 <= i < |closed| ==> WellFormed(Meanings(closed)[i])
    ensures last != [] ==> WellFormed(Meaning(last, true))
  {
    if closed == [] {
      var cs: seq<Scalar> :| EncodeAll(cs) == Render(last);
      if last != [] {
        MeaningKeepsCodePoints(last, true, cs);
      }
    } else {
      var s := RenderList(closed, last);
      var n := |Render(closed[0])|;
      assert s[n] == SEMICOLON && s[..n] == Render(closed[0]) && s[n + 1..] == RenderList(closed[1..], last);
      WellFormedAroundAscii(s, n);
      var cs: seq<Scalar> :| EncodeAll(cs) == Render(closed[0]);
      MeaningKeepsCodePoints(closed[0], true, cs);
      RenderedItemsAreWellFormed(closed[1..], last);
    }
  }

  // ---------------------------------------------------------------- lines and values

  datatype Ending = Lf | CrLf | EndOfText

  function EndingBytes(e: Ending): Bytes {
    match e case Lf => [NEWLINE] case CrLf => [RETURN, NEWLINE] case EndOfText => []
  }

  /** The text of lines and their endings, in order. */
  function Assemble(lines: seq<Bytes>, endings: seq<Ending>): Bytes
    requires |lines| == |endings|
  {
    if lines == [] then []
    else lines[0] + EndingBytes(endings[0]) + Assemble(lines[1..], endings[1..])
  }

  lemma {:induction false} AssembleSnoc(lines: seq<Bytes>, endings: seq<Ending>, line: Bytes, e: Ending)
    requires |lines| == |endings|
    ensures Assemble(lines + [line], endings + [e]) == Assemble(lines, endings) + line + EndingBytes(e)
  {
    hide EndingBytes;
    if lines == [] {
      assert lines + [line] == [line] && endings + [e] == [e];
      assert Assemble([line], [e]) == line + EndingBytes(e) + Assemble([], []);
    } else {
      assert (lines + [line])[1..] == lines[1..] + [line] && (endings + [e])[1..] == endings[1..] + [e];
      AssembleSnoc(lines[1..], endings[1..], line, e);
    }
  }

  predicate LineClean(line: Bytes) {
    && |line| <= MAXIMUM_LINE_BYTES
    && forall i :: 0 <= i < |line| ==> line[i] >= 0x20 && line[i] != 0x7F
  }

  /** The first `offset` bytes of the text are these clean, well-formed lines with these endings. */
  ghost predicate Sliced(contents: Bytes, offset: nat, lines: seq<Bytes>, endings: seq<Ending>) {
    && |lines| == |endings|
    && (forall i :: 0 <= i < |lines| ==> LineClean(lines[i]) && WellFormed(lines[i]))
    && offset <= |contents|
    && Assemble(lines, endings) == contents[..offset]
  }

  /** Every line so far ended at a line feed. */
  predicate Ongoing(endings: seq<Ending>) {
    forall i :: 0 <= i < |endings| ==> endings[i] != EndOfText
  }

  /** The whole text, cut at its line feeds: only the last line has none. */
  ghost predicate AllSliced(contents: Bytes, lines: seq<Bytes>, endings: seq<Ending>) {
    && Sliced(contents, |contents|, lines, endings)
    && 0 < |lines| <= MAXIMUM_LINES
    && endings[|endings| - 1] == EndOfText
    && Ongoing(endings[..|endings| - 1])
  }

  lemma {:induction false} SlicedNothing(contents: Bytes)
    ensures Sliced(contents, 0, [], [])
  {
  }

  lemma {:induction false} SlicedMore(contents: Bytes, offset: nat, next: nat, lines: seq<Bytes>,
      endings: seq<Ending>, line: Bytes, e: Ending)
    requires Sliced(contents, offset, lines, endings)
    requires offset <= next <= |contents| && contents[offset..next] == line + EndingBytes(e)
    requires LineClean(line) && WellFormed(line)
    ensures Sliced(contents, next, lines + [line], endings + [e])
  {
    hide LineClean, WellFormed, Assemble;
    AssembleSnoc(lines, endings, line, e);
    assert contents[..next] == contents[..offset] + contents[offset..next];
  }

  lemma {:induction false} SlicedAll(contents: Bytes, lines: seq<Bytes>, endings: seq<Ending>, line: Bytes)
    requires Sliced(contents, |contents|, lines + [line], endings + [EndOfText])
    requires |lines| == |endings| < MAXIMUM_LINES && Ongoing(endings)
    ensures AllSliced(contents, lines + [line], endings + [EndOfText])
  {
    hide Sliced;
    assert (endings + [EndOfText])[..|endings|] == endings;
  }

  method FindByte(s: Bytes, b: Byte, from: nat) returns (at: nat)
    requires from <= |s|
    ensures from <= at <= |s|
    ensures forall i :: from <= i < at ==> s[i] != b
    ensures at < |s| ==> s[at] == b
  {
    at := from;
    while at < |s| && s[at] != b
      invariant from <= at <= |s|
      invariant forall i :: from <= i < at ==> s[i] != b
    {
      at := at + 1;
    }
  }

  /** The first line feed, or the end. */
  function LineEnd(s: Bytes): (n: nat)
    ensures n <= |s|
    ensures forall i :: 0 <= i < n ==> s[i] != NEWLINE
    ensures n < |s| ==> s[n] == NEWLINE
  {
    if s == [] || s[0] == NEWLINE then 0 else 1 + LineEnd(s[1..])
  }

  function WithoutReturn(line: Bytes): Bytes {
    if line != [] && line[|line| - 1] == RETURN then line[..|line| - 1] else line
  }

  /** The lines of a text: what stands between line feeds, without a carriage return before a line feed. */
  function LinesOf(s: Bytes): (lines: seq<Bytes>)
    ensures lines != []
    decreases |s|
  {
    var n := LineEnd(s);
    if n == |s| then [s] else [WithoutReturn(s[..n])] + LinesOf(s[n + 1..])
  }

  lemma {:induction false} LineEndIs(s: Bytes, n: nat)
    requires n <= |s| && (forall i :: 0 <= i < n ==> s[i] != NEWLINE) && (n < |s| ==> s[n] == NEWLINE)
    ensures LineEnd(s) == n
  {
  }

  predicate AllClean(lines: seq<Bytes>) {
    forall i :: 0 <= i < |lines| ==> LineClean(lines[i])
  }

  lemma {:induction false} FirstLine(s: Bytes, n: nat)
    requires n <= |s| && (forall i :: 0 <= i < n ==> s[i] != NEWLINE) && (n < |s| ==> s[n] == NEWLINE)
    ensures LinesOf(s) == if n == |s| then [s] else [WithoutReturn(s[..n])] + LinesOf(s[n + 1..])
  {
    LineEndIs(s, n);
    hide LineEnd;
  }

  /** A line that was cut at the first line feed is the first line of what is left. */
  lemma {:induction false} CutIsFirstLine(contents: Bytes, offset: nat, end: nat, line: Bytes, ending: Ending)
    requires offset <= end <= |contents| && (ending == EndOfText <==> end == |contents|)
    requires contents[offset..if end < |contents| then end + 1 else end] == line + EndingBytes(ending)
    requires ending == Lf ==> line == [] || line[|line| - 1] != RETURN
    requires forall i :: offset <= i < end ==> contents[i] != NEWLINE
    ensures LinesOf(contents[offset..]) == [line] + if end == |contents| then [] else LinesOf(contents[end + 1..])
  {
    hide LinesOf, LineEnd;
    var s, n := contents[offset..], end - offset;
    if end == |contents| {
      assert contents[offset..end] == s && line + EndingBytes(ending) == line;
      FirstLine(s, n);
    } else {
      var cut := contents[offset..end + 1];
      assert cut[..n] == contents[offset..end];
      assert s[..n] == contents[offset..end];
      assert cut[n] == s[n];
      assert s[n + 1..] == contents[end + 1..];
      if ending == Lf {
        assert cut[..n] == line && cut[n] == NEWLINE;
      } else {
        assert cut[..n] == line + [RETURN] && cut[n] == NEWLINE;
      }
      FirstLine(s, n);
    }
  }

  /** The text from an offset on holds the lines that are left after clean ones. */
  predicate Remaining(contents: Bytes, offset: nat, lines: seq<Bytes>)
    requires offset <= |contents|
  {
    LinesOf(contents) == lines + LinesOf(contents[offset..]) && AllClean(lines)
  }

  lemma {:induction false} NothingRead(contents: Bytes)
    ensures Remaining(contents, 0, [])
  {
    assert contents[0..] == contents;
  }

  lemma {:induction false} OneMoreRead(contents: Bytes, offset: nat, end: nat, lines: seq<Bytes>, line: Bytes)
    requires offset <= end <= |contents| && Remaining(contents, offset, lines)
    requires LinesOf(contents[offset..]) == [line] + if end == |contents| then [] else LinesOf(contents[end + 1..])
    ensures |LinesOf(contents)| > |lines| && LinesOf(contents)[|lines|] == line
    ensures LineClean(line) && end < |contents| ==> Remaining(contents, end + 1, lines + [line])
    ensures LineClean(line) && end == |contents| ==> LinesOf(contents) == lines + [line] && AllClean(LinesOf(contents))
  {
    hide LinesOf, LineClean;
    assert lines + ([line] + []) == lines + [line];
    if end < |contents| {
      assert lines + ([line] + LinesOf(contents[end + 1..])) == lines + [line] + LinesOf(contents[end + 1..]);
    }
  }

  lemma {:induction false} UncleanLine(lines: seq<Bytes>, i: nat)
    requires i < |lines| && !LineClean(lines[i])
    ensures !AllClean(lines)
  {
  }

  /** The line that starts at `offset`, where it ends, and how it ends. */
  method CutLine(contents: Bytes, offset: nat) returns (line: Bytes, end: nat, ghost next: nat, ghost ending: Ending)
    requires offset <= |contents| && WellFormed(contents[offset..])
    ensures offset <= end <= next <= |contents| && next <= end + 1
    ensures ending == EndOfText <==> end == |contents|
    ensures end < |contents| ==> next == end + 1
    ensures contents[offset..next] == line + EndingBytes(ending)
    ensures WellFormed(line) && WellFormed(contents[next..])
    ensures ending == Lf ==> line == [] || line[|line| - 1] != RETURN
    ensures forall i :: offset <= i < end ==> contents[i] != NEWLINE
  {
    hide WellFormed;
    end := FindByte(contents, NEWLINE, offset);
    line := contents[offset..end];
    ending, next := EndOfText, end;
    ghost var here := contents[offset..];
    assert line == here[..end - offset];
    if end < |contents| {
      ending, next := Lf, end + 1;
      WellFormedAroundAscii(here, end - offset);
      assert here[end - offset + 1..] == contents[end + 1..];
      if line != [] && line[|line| - 1] == RETURN {
        WellFormedAroundAscii(line, |line| - 1);
        line := line[..|line| - 1];
        ending := CrLf;
      }
    } else {
      assert line == here;
      EmptyIsWellFormed();
      assert contents[end..] == [];
    }
  }

  method CheckLine(line: Bytes) returns (r: Option<ErrorCode>)
    ensures r.None? <==> LineClean(line)
    ensures r.Some? ==> r.value == if |line| > MAXIMUM_LINE_BYTES then TooLarge else SyntaxError
  {
    if |line| > MAXIMUM_LINE_BYTES {
      return Some(TooLarge);
    }
    for i := 0 to |line|
      invariant forall j :: 0 <= j < i ==> line[j] >= 0x20 && line[j] != 0x7F
    {
      if line[i] < 0x20 || line[i] == 0x7F {
        return Some(SyntaxError);
      }
    }
    return None;
  }

  /** What the line loop has done up to an offset. */
  ghost predicate ReadUpTo(contents: Bytes, offset: nat, lines: seq<Bytes>, endings: seq<Ending>) {
    && Sliced(contents, offset, lines, endings) && Ongoing(endings)
    && WellFormed(contents[offset..]) && Remaining(contents, offset, lines)
  }

  lemma {:induction false} ReadNothing(contents: Bytes)
    requires WellFormed(contents)
    ensures ReadUpTo(contents, 0, [], [])
  {
    SlicedNothing(contents);
    NothingRead(contents);
    assert Ongoing([]) && contents[0..] == contents;
    hide *;
  }

  lemma {:induction false} MoreToRead(contents: Bytes, offset: nat, lines: seq<Bytes>, endings: seq<Ending>)
    requires ReadUpTo(contents, offset, lines, endings)
    ensures offset <= |contents| && WellFormed(contents[offset..]) && |LinesOf(contents)| > |lines|
  {
  }

  /** One round of the loop after a line was cut. */
  lemma {:induction false} ReadOneLine(
      contents: Bytes, offset: nat, end: nat, next: nat, lines: seq<Bytes>, endings: seq<Ending>, line: Bytes,
        ending: Ending)
    requires ReadUpTo(contents, offset, lines, endings) && |lines| < MAXIMUM_LINES
    requires offset <= end <= next <= |contents| && next == (if end < |contents| then end + 1 else end)
    requires ending == EndOfText <==> end == |contents|
    requires contents[offset..next] == line + EndingBytes(ending)
    requires WellFormed(line) && WellFormed(contents[next..])
    requires ending == Lf ==> line == [] || line[|line| - 1] != RETURN
    requires forall i :: offset <= i < end ==> contents[i] != NEWLINE
    ensures !LineClean(line) ==> !AllClean(LinesOf(contents))
    ensures LineClean(line) && end < |contents| ==> ReadUpTo(contents, next, lines + [line], endings + [ending])
    ensures LineClean(line) && end == |contents| ==>
      && AllSliced(contents, lines + [line], endings + [ending])
      && LinesOf(contents) == lines + [line] && AllClean(LinesOf(contents))
  {
    CutIsFirstLine(contents, offset, end, line, ending);
    OneMoreRead(contents, offset, end, lines, line);
    hide LinesOf, AllClean, Remaining, LineClean, WellFormed, Assemble, EndingBytes, Sliced;
    if LineClean(line) {
      assert |lines| == |endings| by { SlicedCounts(contents, offset, lines, endings); }
      SlicedMore(contents, offset, next, lines, endings, line, ending);
      if end == |contents| {
        SlicedAll(contents, lines, endings, line);
      } else {
        OngoingMore(endings, ending);
      }
    } else {
      UncleanLine(LinesOf(contents), |lines|);
    }
  }

  lemma {:induction false} SlicedCounts(contents: Bytes, offset: nat, lines: seq<Bytes>, endings: seq<Ending>)
    requires Sliced(contents, offset, lines, endings)
    ensures |lines| == |endings|
  {
  }

  /**
   The line loop of parseDesktopEntry, without what it does with each line. The endings show that the
   lines are the whole text cut at its line feeds: only the last line has no line feed, and a carriage
   return is dropped only before a line feed. Lines hold no control bytes, so the cut is the only one.
   */
  method SliceLines(contents: Bytes) returns (r: Result<seq<Bytes>>, ghost endings: seq<Ending>)
    requires WellFormed(contents)
    ensures r.Success? <==> |LinesOf(contents)| <= MAXIMUM_LINES && AllClean(LinesOf(contents))
    ensures r.Success? ==> r.value == LinesOf(contents) && AllSliced(contents, r.value, endings)
    ensures r.Failure? ==> r.error == TooLarge || r.error == SyntaxError
  {
    hide *;
    ReadNothing(contents);
    var lines: seq<Bytes> := [];
    endings := [];
    var offset := 0;
    var lineCount := 0;
    while offset <= |contents|
      invariant offset <= |contents| && lineCount == |lines| <= MAXIMUM_LINES
      invariant ReadUpTo(contents, offset, lines, endings)
      decreases |contents| - offset
    {
      MoreToRead(contents, offset, lines, endings);
      lineCount := lineCount + 1;
      if lineCount > MAXIMUM_LINES {
        return Failure(TooLarge), endings;
      }
      var line, end, next, ending := CutLine(contents, offset);
      ReadOneLine(contents, offset, end, next, lines, endings, line, ending);
      var fault := CheckLine(line);
      if fault.Some? {
        return Failure(fault.value), endings;
      }
      lines := lines + [line];
      endings := endings + [ending];
      if end == |contents| {
        return Success(lines), endings;
      }
      offset := end + 1;
    }
    assert false;
  }

  lemma {:induction false} OngoingMore(endings: seq<Ending>, e: Ending)
    requires Ongoing(endings) && e != EndOfText
    ensures Ongoing(endings + [e])
  {
  }

  predicate AllSpaces(s: Bytes) {
    forall i :: 0 <= i < |s| ==> s[i] == SPACE
  }

  ghost predicate EntrySlice(line: Bytes, key: Bytes, before: Bytes, after: Bytes, value: Bytes) {
    && line == key + before + [EQUALS] + after + value
    && AllSpaces(before) && AllSpaces(after)
    && EQUALS !in key
    && (key == [] || key[|key| - 1] != SPACE)
    && (value == [] || value[0] != SPACE)
  }

  /** A key-value line cut at its first equals sign, with the blanks around the sign dropped. */
  method SliceEntry(line: Bytes) returns (r: Option<(Bytes, Bytes)>)
    requires WellFormed(line)
    ensures r.None? <==> (EQUALS !in line || line[0] == EQUALS)
    ensures r.Some? ==> exists before, after :: EntrySlice(line, r.value.0, before, after, r.value.1)
    ensures r.Some? ==> WellFormed(r.value.0) && WellFormed(r.value.1)
  {
    hide WellFormed;
    var equals := FindByte(line, EQUALS, 0);
    if equals == |line| || equals == 0 {
      return None;
    }
    var keyEnd := equals;
    WellFormedAroundAscii(line, equals);
    while keyEnd > 0 && line[keyEnd - 1] == SPACE
      invariant 0 <= keyEnd <= equals
      invariant forall i :: keyEnd <= i < equals ==> line[i] == SPACE
      invariant WellFormed(line[..keyEnd])
    {
      WellFormedAroundAscii(line, keyEnd - 1);
      keyEnd := keyEnd - 1;
    }
    var valueStart := equals + 1;
    while valueStart < |line| && line[valueStart] == SPACE
      invariant equals < valueStart <= |line|
      invariant forall i :: equals < i < valueStart ==> line[i] == SPACE
      invariant WellFormed(line[valueStart..])
    {
      WellFormedAroundAscii(line, valueStart);
      valueStart := valueStart + 1;
    }
    ghost var before := line[keyEnd..equals];
    ghost var after := line[equals + 1..valueStart];
    assert line == line[..keyEnd] + before + [EQUALS] + after + line[valueStart..];
    assert EntrySlice(line, line[..keyEnd], before, after, line[valueStart..]);
    return Some((line[..keyEnd], line[valueStart..]));
  }

  /** The slice is determined by the line. */
  lemma {:induction false} EntrySliceIsUnique(line: Bytes, k: Bytes, b: Bytes, a: Bytes, v: Bytes, k': Bytes,
      b': Bytes, a': Bytes, v': Bytes)
    requires EntrySlice(line, k, b, a, v) && EntrySlice(line, k', b', a', v')
    ensures k == k' && v == v'
  {
    SameFirstEquals(line, k + b, a + v, k' + b', a' + v');
    SameTail(k, b, k', b');
    SameHead(a, v, a', v');
  }

  lemma {:induction false} SameFirstEquals(line: Bytes, x: Bytes, y: Bytes, x': Bytes, y': Bytes)
    requires line == x + [EQUALS] + y == x' + [EQUALS] + y'
    requires EQUALS !in x && EQUALS !in x'
    ensures x == x' && y == y'
  {
    assert line[|x|] == EQUALS && line[|x'|] == EQUALS;
    assert forall i :: 0 <= i < |x| ==> line[i] == x[i];
    assert forall i :: 0 <= i < |x'| ==> line[i] == x'[i];
    assert |x| == |x'|;
    assert x == line[..|x|] && x' == line[..|x'|];
    assert y == line[|x| + 1..] && y' == line[|x'| + 1..];
  }

  lemma {:induction false} SameTail(k: Bytes, b: Bytes, k': Bytes, b': Bytes)
    requires k + b == k' + b' && AllSpaces(b) && AllSpaces(b')
    requires k == [] || k[|k| - 1] != SPACE
    requires k' == [] || k'[|k'| - 1] != SPACE
    ensures k == k'
  {
    var s := k + b;
    assert forall i :: |k| <= i < |s| ==> s[i] == b[i - |k|];
    assert forall i :: |k'| <= i < |s| ==> s[i] == b'[i - |k'|];
    assert k != [] ==> s[|k| - 1] == k[|k| - 1];
    assert k' != [] ==> s[|k'| - 1] == k'[|k'| - 1];
    assert |k| == |k'|;
    assert k == s[..|k|] && k' == s[..|k'|];
  }

  lemma {:induction false} SameHead(a: Bytes, v: Bytes, a': Bytes, v': Bytes)
    requires a + v == a' + v' && AllSpaces(a) && AllSpaces(a')
    requires v == [] || v[0] != SPACE
    requires v' == [] || v'[0] != SPACE
    ensures v == v'
  {
    var s := a + v;
    assert forall i :: 0 <= i < |a| ==> s[i] == SPACE;
    assert forall i :: 0 <= i < |a'| ==> s[i] == SPACE;
    assert v != [] ==> s[|a|] == v[0];
    assert v' != [] ==> s[|a'|] == v'[0];
    assert |a| == |a'|;
    assert v == s[|a|..] && v' == s[|a'|..];
  }

  // ---------------------------------------------------------------- from the document to the control scan

  const HASH: Byte := 0x23
  const OPENING_BRACKET: Byte := 0x5B

  /** Neither blank nor a comment nor a group header. */
  predicate IsEntryLine(line: Bytes) {
    line != [] && line[0] != HASH && line[0] != OPENING_BRACKET
  }

  ghost predicate EntryHoldsControl(line: Bytes, key: Bytes, before: Bytes, after: Bytes, value: Bytes) {
    EntrySlice(line, key, before, after, value)
    && Unescape(value, false).Some? && HasControl(Unescape(value, false).value)
  }

  /** The line is an entry whose decoded value holds a control code point. */
  ghost predicate LineHoldsControl(line: Bytes) {
    && IsEntryLine(line) && EQUALS in line && line[0] != EQUALS
    && exists key, before, after, value :: EntryHoldsControl(line, key, before, after, value)
  }

  /** One entry line, from slicing over decoding to the control scan. */
  method LineControl(line: Bytes) returns (found: bool)
    requires WellFormed(line)
    ensures found <==> LineHoldsControl(line)
  {
    hide WellFormed, HasControl, Unescape, EntrySlice;
    found := false;
    if line == [] || line[0] == HASH || line[0] == OPENING_BRACKET {
      return;
    }
    var entry := SliceEntry(line);
    if entry.None? {
      return;
    }
    var (key, value) := entry.value;
    ghost var before, after :| EntrySlice(line, key, before, after, value);
    var decoded := DecodeString(value, false);
    if decoded.Success? {
      DecodedValueIsWellFormed(value, false);
      found := HasUnsafeControl(decoded.value);
      assert found ==> EntryHoldsControl(line, key, before, after, value);
    }
    if LineHoldsControl(line) {
      ghost var k, b, a, v :| EntryHoldsControl(line, k, b, a, v);
      EntrySliceIsUnique(line, key, before, after, value, k, b, a, v);
    }
  }

  /**
   A document that passes the checks of its text has a control scan for every line that stays inside its
   decoded value and finds exactly the control code points: nothing on the way breaks well-formedness.
   */
  method ScanDocument(contents: Bytes, maximumCodepoints: nat) returns (r: Result<seq<bool>>)
    ensures r.Success? ==> WellFormed(contents) && |r.value| == |LinesOf(contents)|
    ensures r.Success? ==> forall i :: 0 <= i < |r.value| ==> (r.value[i] <==> LineHoldsControl(LinesOf(contents)[i]))
    ensures r.Success? <==> WellFormedWithin(contents, maximumCodepoints, c => false)
                            && |LinesOf(contents)| <= MAXIMUM_LINES && AllClean(LinesOf(contents))
  {
    hide *;
    var status := ValidateUtf8(contents, maximumCodepoints);
    VerdictMeansWellFormed(contents, maximumCodepoints, c => false, status);
    if status != Valid {
      return Failure(if status == Invalid then SyntaxError else TooLarge);
    }
    ghost var endings;
    var sliced: Result<seq<Bytes>>;
    sliced, endings := SliceLines(contents);
    if sliced.Failure? {
      return Failure(sliced.error);
    }
    SlicedLinesAreWellFormed(contents, sliced.value, endings);
    var flags: seq<bool> := [];
    for i := 0 to |sliced.value|
      invariant |flags| == i
      invariant forall k :: 0 <= k < i ==> (flags[k] <==> LineHoldsControl(sliced.value[k]))
    {
      var found := LineControl(sliced.value[i]);
      flags := flags + [found];
    }
    return Success(flags);
  }

  lemma {:induction false} SlicedLinesAreWellFormed(contents: Bytes, lines: seq<Bytes>, endings: seq<Ending>)
    requires AllSliced(contents, lines, endings)
    ensures forall i :: 0 <= i < |lines| ==> WellFormed(lines[i])
  {
  }
}
