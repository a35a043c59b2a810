/**
 Searching the application catalog: how a text matches, how matches are ranked, and the streaming search
 that keeps the best results. For any split of the work, a finished search returns exactly the first results
 of the fully sorted list of matching applications.
 */
module ApplicationSearch {
  import opened Foundation
  import opened Ordering
  import Discovery
  import ApplicationCatalog
  import Utf8

  const MAXIMUM_QUERY_BYTES: nat := 1024
  const MAXIMUM_QUERY_CODEPOINTS: nat := 256
  const MAXIMUM_QUERY_TOKENS: nat := 32
  const MAXIMUM_WORK_UNITS: nat := 4096
  const MAXIMUM_RESULTS: nat := 512
  const NO_MATCH: nat := 255

  /** Text is a row of bytes, one character each. */
  predicate IsWhitespace(c: char) {
    Utf8.IsAsciiWhitespace(c as int)
  }

  predicate IsWordByte(c: char) {
    'a' <= c <= 'z' || 'A' <= c <= 'Z' || '0' <= c <= '9' || c == '_' || c >= 128 as char
  }

  function FoldChar(c: char): char {
    if 'A' <= c <= 'Z' then (c as int + 32) as char else c
  }

  function FoldAscii(s: string): (r: string)
    ensures |r| == |s| && forall i :: 0 <= i < |s| ==> r[i] == FoldChar(s[i])
  {
    seq(|s|, i requires 0 <= i < |s| => FoldChar(s[i]))
  }

  // ---------------------------------------------------------------- matching

  datatype Shape = Exact | Prefix | WordPrefix | Substring

  predicate OccursAt(field: string, needle: string, p: nat) {
    p + |needle| <= |field| && field[p..p + |needle|] == needle
  }

  predicate StartsWordAt(field: string, needle: string, p: nat) {
    0 < p && OccursAt(field, needle, p) && !IsWordByte(field[p - 1])
  }

  /** The best shape in which a needle occurs in a field. */
  function ShapeOf(field: string, needle: string): Option<Shape> {
    if field == needle then Some(Exact)
    else if OccursAt(field, needle, 0) then Some(Prefix)
    else if exists p: nat :: p <= |field| && StartsWordAt(field, needle, p) then Some(WordPrefix)
    else if exists p: nat :: p <= |field| && OccursAt(field, needle, p) then Some(Substring)
    else None
  }

  /** std::string_view::find. */
  method Find(field: string, needle: string, start: nat) returns (position: Option<nat>)
    ensures position.Some? ==> start <= position.value <= |field| && OccursAt(field, needle, position.value)
    ensures position.Some? ==> forall p :: start <= p < position.value ==> !OccursAt(field, needle, p)
    ensures position.None? ==> forall p :: start <= p ==> !OccursAt(field, needle, p)
  {
    var p := start;
    while p + |needle| <= |field|
      invariant start <= p
      invariant forall q :: start <= q < p ==> !OccursAt(field, needle, q)
      decreases |field| - p
    {
      if field[p..p + |needle|] == needle {
        return Some(p);
      }
      p := p + 1;
    }
    return None;
  }

  method MatchShape(field: string, needle: string) returns (shape: Option<Shape>)
    ensures shape == ShapeOf(field, needle)
  {
    if field == needle {
      return Some(Exact);
    }
    if |needle| <= |field| && field[..|needle|] == needle {
      return Some(Prefix);
    }
    assert !OccursAt(field, needle, 0);
    var position := Find(field, needle, 0);
    var found := position;
    while position.Some?
      invariant position.Some? ==> position.value <= |field| && OccursAt(field, needle, position.value)
      invariant forall p: nat :: (position.Some? ==> p < position.value) ==> !StartsWordAt(field, needle, p)
      invariant found.Some? ==> found.value <= |field| && OccursAt(field, needle, found.value)
      invariant found.None? ==> forall p: nat :: !OccursAt(field, needle, p)
      decreases if position.Some? then |field| + 1 - position.value else 0
    {
      if position.value > 0 && !IsWordByte(field[position.value - 1]) {
        assert StartsWordAt(field, needle, position.value);
        return Some(WordPrefix);
      }
      position := Find(field, needle, position.value + 1);
    }
    return if found.None? then None else Some(Substring);
  }

  datatype Description = Description(
    name: Option<string>, genericName: Option<string>, keywords: seq<string>, categories: seq<string>)

  /** A searched text with the number of its field. */
  datatype Field = Field(text: string, number: nat)

  function FieldsOf(texts: seq<string>, number: nat): (r: seq<Field>)
    ensures |r| == |texts| && forall i :: 0 <= i < |r| ==> r[i] == Field(texts[i], number)
  {
    seq(|texts|, i requires 0 <= i < |texts| => Field(texts[i], number))
  }

  function AsSeq<T>(o: Option<T>): seq<T> {
    match o case None => [] case Some(x) => [x]
  }

  /** The searched fields: name, generic name, keywords, categories. */
  function Fields(d: Description): seq<Field> {
    FieldsOf(AsSeq(d.name), 0) + FieldsOf(AsSeq(d.genericName), 1) + FieldsOf(d.keywords, 2) + FieldsOf(d.categories, 3)
  }

  function ShapeNumber(shape: Shape): nat {
    match shape case Exact => 0 case Prefix => 1 case WordPrefix => 2 case Substring => 3
  }

  function RankOf(shape: Shape, number: nat): nat {
    ShapeNumber(shape) * 4 + number
  }

  function FieldRank(f: Field, needle: string): nat {
    match ShapeOf(FoldAscii(f.text), needle)
    case None => NO_MATCH
    case Some(shape) => RankOf(shape, f.number)
  }

  function Min(a: nat, b: nat): nat { if b < a then b else a }

  /** The least rank of any field, or no match. */
  function Best(fields: seq<Field>, needle: string): (best: nat)
    ensures best <= NO_MATCH
  {
    if fields == [] then NO_MATCH
    else Min(Best(fields[..|fields| - 1], needle), FieldRank(fields[|fields| - 1], needle))
  }

  predicate Numbered(fields: seq<Field>) {
    forall i :: 0 <= i < |fields| ==> fields[i].number <= 3
  }

  /** The best rank is the least one that a field attains; ranks stay below sixteen. */
  lemma {:induction false} BestIsLeast(fields: seq<Field>, needle: string)
    requires Numbered(fields)
    ensures Best(fields, needle) <= 15 || Best(fields, needle) == NO_MATCH
    ensures forall i :: 0 <= i < |fields| ==> Best(fields, needle) <= FieldRank(fields[i], needle)
    ensures Best(fields, needle) != NO_MATCH ==>
      exists i :: 0 <= i < |fields| && FieldRank(fields[i], needle) == Best(fields, needle)
    ensures Best(fields, needle) != NO_MATCH <==>
              exists i :: 0 <= i < |fields| && ShapeOf(FoldAscii(fields[i].text), needle).Some?
  {
    hide ShapeOf, FoldAscii;
    if fields != [] {
      var front, last := fields[..|fields| - 1], fields[|fields| - 1];
      BestIsLeast(front, needle);
      assert forall i :: 0 <= i < |front| ==> front[i] == fields[i];
      assert FieldRank(last, needle) <= 15 || FieldRank(last, needle) == NO_MATCH;
      if Best(fields, needle) == FieldRank(last, needle) {
        assert fields[|fields| - 1] == last;
      }
    }
  }

  method ConsiderField(best: nat, text: string, needle: string, number: nat) returns (better: nat)
    requires best <= NO_MATCH
    ensures better == Min(best, FieldRank(Field(text, number), needle))
  {
    better := best;
    var shape := MatchShape(FoldAscii(text), needle);
    if shape.Some? {
      better := Min(best, RankOf(shape.value, number));
    }
  }

  lemma {:induction false} BestOfMore(fields: seq<Field>, f: Field, needle: string)
    ensures Best(fields + [f], needle) == Min(Best(fields, needle), FieldRank(f, needle))
  {
    assert (fields + [f])[..|fields|] == fields;
  }

  lemma {:induction false} FieldsOfMore(before: seq<Field>, texts: seq<string>, number: nat, i: nat)
    requires i < |texts|
    ensures before + FieldsOf(texts[..i + 1], number)
         == before + FieldsOf(texts[..i], number) + [Field(texts[i], number)]
  {
  }

  lemma {:induction false} FieldsOfAll(before: seq<Field>, texts: seq<string>, number: nat)
    ensures before + FieldsOf(texts[..0], number) == before
    ensures FieldsOf(texts[..|texts|], number) == FieldsOf(texts, number)
  {
    assert texts[..|texts|] == texts;
  }

  /** The loop over one list of texts, asking the token before each. */
  method ConsiderTexts(best: nat, ghost before: seq<Field>, texts: seq<string>, number: nat, needle: string,
      token: CancellationToken)
      returns (better: nat, cancelled: bool)
    requires best == Best(before, needle) && token.Quiet()
    modifies token
    ensures cancelled <==> !token.Quiet()
    ensures !cancelled ==> better == Best(before + FieldsOf(texts, number), needle)
  {
    better, cancelled := best, false;
    hide Best, FieldRank, FieldsOf, ShapeOf, FoldAscii;
    FieldsOfAll(before, texts, number);
    for i := 0 to |texts|
      invariant token.Quiet()
      invariant better == Best(before + FieldsOf(texts[..i], number), needle)
    {
      var requested := token.IsCancellationRequested();
      if requested {
        return NO_MATCH, true;
      }
      better := ConsiderField(better, texts[i], needle, number);
      BestOfMore(before + FieldsOf(texts[..i], number), Field(texts[i], number), needle);
      FieldsOfMore(before, texts, number, i);
    }
  }

  method BestMatch(d: Description, needle: string, token: CancellationToken) returns (best: nat, cancelled: bool)
    requires token.Quiet()
    modifies token
    ensures cancelled <==> !token.Quiet()
    ensures !cancelled ==> best == Best(Fields(d), needle)
  {
    best, cancelled := NO_MATCH, false;
    ghost var fields: seq<Field> := [];
    assert best == Best(fields, needle);
    hide Best, FieldRank;
    if d.name.Some? {
      best := ConsiderField(best, d.name.value, needle, 0);
      BestOfMore(fields, Field(d.name.value, 0), needle);
      fields := fields + [Field(d.name.value, 0)];
    }
    assert fields == FieldsOf(AsSeq(d.name), 0);
    if d.genericName.Some? {
      best := ConsiderField(best, d.genericName.value, needle, 1);
      BestOfMore(fields, Field(d.genericName.value, 1), needle);
      fields := fields + [Field(d.genericName.value, 1)];
    }
    assert fields == FieldsOf(AsSeq(d.name), 0) + FieldsOf(AsSeq(d.genericName), 1);
    best, cancelled := ConsiderTexts(best, fields, d.keywords, 2, needle, token);
    if cancelled {
      return;
    }
    best, cancelled := ConsiderTexts(best, fields + FieldsOf(d.keywords, 2), d.categories, 3, needle, token);
  }

  // ---------------------------------------------------------------- queries

  datatype Query = Query(tokens: seq<string>, phrase: string)

  function TokenEnd(text: string): (n: nat)
    ensures n <= |text| && forall i :: 0 <= i < n ==> !IsWhitespace(text[i])
    ensures n < |text| ==> IsWhitespace(text[n])
  {
    if text == "" || IsWhitespace(text[0]) then 0 else 1 + TokenEnd(text[1..])
  }

  /** The maximal whitespace-free stretches of a text, folded. */
  function Tokens(text: string): seq<string>
    decreases |text|
  {
    if text == "" then []
    else if IsWhitespace(text[0]) then Tokens(text[1..])
    else [FoldAscii(text[..TokenEnd(text)])] + Tokens(text[TokenEnd(text)..])
  }

  function Phrase(tokens: seq<string>): string {
    if tokens == [] then ""
    else if |tokens| == 1 then tokens[0]
    else tokens[0] + " " + Phrase(tokens[1..])
  }

  function ParsedQuery(text: string, status: Utf8.Status): Result<Query> {
    if |text| > MAXIMUM_QUERY_BYTES then Failure(TooLarge)
    else
      match status
      case Invalid => Failure(ValidationError)
      case UnsafeControl => Failure(ValidationError)
      case TooManyCodepoints => Failure(TooLarge)
      case Valid =>
        if |Tokens(text)| > MAXIMUM_QUERY_TOKENS then Failure(TooLarge)
        else Success(Query(Tokens(text), Phrase(Tokens(text))))
  }

  predicate IsToken(t: string) {
    t != "" && forall i :: 0 <= i < |t| ==> !IsWhitespace(t[i]) && FoldChar(t[i]) == t[i]
  }

  lemma {:induction false} FoldedTokenIsToken(t: string)
    requires t != "" && forall i :: 0 <= i < |t| ==> !IsWhitespace(t[i])
    ensures IsToken(FoldAscii(t))
  {
  }

  lemma {:induction false} TokensAreTokens(text: string)
    ensures forall i :: 0 <= i < |Tokens(text)| ==> IsToken(Tokens(text)[i])
    decreases |text|
  {
    if text != "" {
      if IsWhitespace(text[0]) {
        TokensAreTokens(text[1..]);
      } else {
        FoldedTokenIsToken(text[..TokenEnd(text)]);
        TokensAreTokens(text[TokenEnd(text)..]);
      }
    }
  }

  lemma {:induction false} TokenEndOf(t: string, rest: string)
    requires IsToken(t) && (rest == "" || rest[0] == ' ')
    ensures TokenEnd(t + rest) == |t|
    decreases |t|
  {
    if |t| == 1 {
      assert (t + rest)[1..] == rest;
    } else {
      assert (t + rest)[1..] == t[1..] + rest;
      TokenEndOf(t[1..], rest);
    }
  }

  /** Splitting the phrase gives the tokens back: a query is its own normal form. */
  lemma {:induction false} PhraseSplitsBack(tokens: seq<string>)
    requires forall i :: 0 <= i < |tokens| ==> IsToken(tokens[i])
    ensures Tokens(Phrase(tokens)) == tokens
  {
    if tokens != [] {
      var t := tokens[0];
      var rest := if |tokens| == 1 then "" else " " + Phrase(tokens[1..]);
      var text := t + rest;
      assert Phrase(tokens) == text;
      TokenEndOf(t, rest);
      assert text[..|t|] == t && text[|t|..] == rest && text[0] == t[0];
      assert FoldAscii(t) == t;
      PhraseSplitsBack(tokens[1..]);
      assert |tokens| > 1 ==> rest[1..] == Phrase(tokens[1..]);
      assert Tokens(rest) == tokens[1..];
    }
  }

  lemma {:induction false} QueryIsNormal(text: string, status: Utf8.Status)
    requires ParsedQuery(text, status).Success?
    ensures var q := ParsedQuery(text, status).value;
      && |q.tokens| <= MAXIMUM_QUERY_TOKENS && Tokens(q.phrase) == q.tokens
      && (q.tokens == [] <==> forall i :: 0 <= i < |text| ==> IsWhitespace(text[i]))
  {
    TokensAreTokens(text);
    PhraseSplitsBack(Tokens(text));
    BlankTexts(text);
  }

  lemma {:induction false} BlankTexts(text: string)
    ensures Tokens(text) == [] <==> forall i :: 0 <= i < |text| ==> IsWhitespace(text[i])
    decreases |text|
  {
    if text != "" && IsWhitespace(text[0]) {
      BlankTexts(text[1..]);
      assert forall i :: 0 < i < |text| ==> text[i] == text[1..][i - 1];
    }
  }

  lemma {:induction false} SkipWhitespace(text: string, offset: nat)
    requires offset < |text| && IsWhitespace(text[offset])
    ensures Tokens(text[offset..]) == Tokens(text[offset + 1..])
  {
    assert text[offset..][1..] == text[offset + 1..];
  }

  lemma {:induction false} TakeToken(text: string, begin: nat, end: nat)
    requires begin < end <= |text| && (end < |text| ==> IsWhitespace(text[end]))
    requires forall i :: begin <= i < end ==> !IsWhitespace(text[i])
    ensures Tokens(text[begin..]) == [FoldAscii(text[begin..end])] + Tokens(text[end..])
  {
    var s := text[begin..];
    assert TokenEnd(s) == end - begin;
    assert s[..end - begin] == text[begin..end] && s[end - begin..] == text[end..];
  }

  lemma {:induction false} PhraseOfMore(tokens: seq<string>, t: string)
    requires tokens != []
    ensures Phrase(tokens + [t]) == Phrase(tokens) + " " + t
  {
    if |tokens| == 1 {
      assert (tokens + [t])[1..] == [t];
    } else {
      PhraseOfMore(tokens[1..], t);
      assert (tokens + [t])[1..] == tokens[1..] + [t];
    }
  }

  /** The tokens of a text, or none when there are too many. */
  method SplitTokens(text: string) returns (tokens: Option<seq<string>>)
    ensures tokens == if |Tokens(text)| > MAXIMUM_QUERY_TOKENS then None else Some(Tokens(text))
  {
    var found: seq<string> := [];
    var offset := 0;
    assert text[0..] == text;
    hide Tokens, FoldAscii;
    while offset < |text|
      invariant offset <= |text| && |found| <= MAXIMUM_QUERY_TOKENS
      invariant found + Tokens(text[offset..]) == Tokens(text)
    {
      while offset < |text| && IsWhitespace(text[offset])
        invariant offset <= |text| && found + Tokens(text[offset..]) == Tokens(text)
      {
        SkipWhitespace(text, offset);
        offset := offset + 1;
      }
      var begin := offset;
      while offset < |text| && !IsWhitespace(text[offset])
        invariant begin <= offset <= |text| && forall i :: begin <= i < offset ==> !IsWhitespace(text[i])
      {
        offset := offset + 1;
      }
      if begin != offset {
        TakeToken(text, begin, offset);
        if |found| >= MAXIMUM_QUERY_TOKENS {
          return None;
        }
        assert found + Tokens(text[begin..]) == found + [FoldAscii(text[begin..offset])] + Tokens(text[offset..]);
        found := found + [FoldAscii(text[begin..offset])];
      }
    }
    NoTokens(text[offset..]);
    assert found + [] == found;
    return Some(found);
  }

  method JoinTokens(tokens: seq<string>) returns (phrase: string)
    requires forall i :: 0 <= i < |tokens| ==> IsToken(tokens[i])
    ensures phrase == Phrase(tokens)
  {
    phrase := "";
    for i := 0 to |tokens|
      invariant phrase == Phrase(tokens[..i])
    {
      assert tokens[..i + 1] == tokens[..i] + [tokens[i]];
      if i > 0 {
        PhraseOfMore(tokens[..i], tokens[i]);
        PhraseIsNotEmpty(tokens[..i]);
      }
      if phrase != "" {
        phrase := phrase + " ";
      }
      phrase := phrase + tokens[i];
    }
    assert tokens[..|tokens|] == tokens;
  }

  /** A verdict is unique, so this fixes the result. */
  method ParseQuery(text: string) returns (r: Result<Query>)
    ensures |text| > MAXIMUM_QUERY_BYTES ==> r == Failure(TooLarge)
    ensures |text| <= MAXIMUM_QUERY_BYTES ==>
      exists status :: Utf8.Verdict(BytesOf(text), MAXIMUM_QUERY_CODEPOINTS, Utf8.UnsafeInQuery, status)
        && r == ParsedQuery(text, status)
  {
    if |text| > MAXIMUM_QUERY_BYTES {
      return Failure(TooLarge);
    }
    var status := Utf8.ValidateQueryUtf8(BytesOf(text), MAXIMUM_QUERY_CODEPOINTS);
    hide Utf8.Verdict;
    match status {
      case Invalid => return Failure(ValidationError);
      case UnsafeControl => return Failure(ValidationError);
      case TooManyCodepoints => return Failure(TooLarge);
      case Valid =>
    }
    hide Tokens, Phrase;
    var tokens := SplitTokens(text);
    if tokens.None? {
      return Failure(TooLarge);
    }
    TokensAreTokens(text);
    var phrase := JoinTokens(tokens.value);
    return Success(Query(tokens.value, phrase));
  }

  lemma {:induction false} NoTokens(text: string)
    requires text == ""
    ensures Tokens(text) == []
  {
  }

  lemma {:induction false} PhraseIsNotEmpty(tokens: seq<string>)
    requires tokens != [] && IsToken(tokens[0])
    ensures Phrase(tokens) != ""
  {
  }

  // ---------------------------------------------------------------- scores

  datatype MatchScore = MatchScore(
    phraseRank: nat, tokenRankSum: nat, worstTokenRank: nat, foldedName: string, id: string, entryIndex: nat)

  predicate ScoreLess(a: MatchScore, b: MatchScore) {
    if a.phraseRank != b.phraseRank then a.phraseRank < b.phraseRank
    else if a.tokenRankSum != b.tokenRankSum then a.tokenRankSum < b.tokenRankSum
    else if a.worstTokenRank != b.worstTokenRank then a.worstTokenRank < b.worstTokenRank
    else if a.foldedName != b.foldedName then LexLess(a.foldedName, b.foldedName)
    else if a.id != b.id then LexLess(a.id, b.id)
    else a.entryIndex < b.entryIndex
  }

  /** Scores are totally ordered, so the order of results never depends on the order of examination. */
  lemma {:induction false} ScoreIsStrictOrder()
    ensures StrictOrder(ScoreLess)
  {
    LexIsStrictOrder();
    hide LexLess;
    assert forall a :: !ScoreLess(a, a);
    forall a, b, c | ScoreLess(a, b) && ScoreLess(b, c) ensures ScoreLess(a, c) {
      ScoreTransitive(a, b, c);
    }
    forall a, b ensures a == b || ScoreLess(a, b) || ScoreLess(b, a) {
      LexTotal(a.foldedName, b.foldedName);
      LexTotal(a.id, b.id);
    }
  }

  lemma {:induction false} ScoreTransitive(a: MatchScore, b: MatchScore, c: MatchScore)
    requires ScoreLess(a, b) && ScoreLess(b, c)
    ensures ScoreLess(a, c)
  {
    hide LexLess;
    if LexLess(a.foldedName, b.foldedName) && LexLess(b.foldedName, c.foldedName) {
      LexTransitive(a.foldedName, b.foldedName, c.foldedName);
      LexIrreflexive(a.foldedName);
    }
    if LexLess(a.id, b.id) && LexLess(b.id, c.id) {
      LexTransitive(a.id, b.id, c.id);
      LexIrreflexive(a.id);
    }
    NotBothLess(a.foldedName, b.foldedName);
    NotBothLess(a.id, b.id);
  }

  lemma {:induction false} NotBothLess(a: string, b: string)
    ensures !(LexLess(a, b) && LexLess(b, a))
  {
    if LexLess(a, b) && LexLess(b, a) {
      LexTransitive(a, b, a);
      LexIrreflexive(a);
    }
  }

  datatype Ranks = Ranks(sum: nat, worst: nat)

  function AddRank(ranks: Ranks, rank: nat): Ranks {
    Ranks(ranks.sum + rank, if ranks.worst < rank then rank else ranks.worst)
  }

  /** The sum and the worst of the best ranks of some tokens, unless one of them matches nowhere. */
  function TokenRanks(fields: seq<Field>, tokens: seq<string>): Option<Ranks> {
    if tokens == [] then Some(Ranks(0, 0))
    else
      var before, rank := TokenRanks(fields, tokens[..|tokens| - 1]), Best(fields, tokens[|tokens| - 1]);
      if before.None? || rank == NO_MATCH then None else Some(AddRank(before.value, rank))
  }

  lemma {:induction false} BestIsBounded(fields: seq<Field>, needle: string)
    requires Numbered(fields)
    ensures Best(fields, needle) <= 15 || Best(fields, needle) == NO_MATCH
  {
    BestIsLeast(fields, needle);
  }

  /** Every token matches some field; the sum of ranks fits its sixteen bits. */
  lemma {:induction false} TokenRanksMatch(fields: seq<Field>, tokens: seq<string>)
    requires Numbered(fields)
    ensures TokenRanks(fields, tokens).Some? <==> forall i :: 0 <= i < |tokens| ==> Best(fields, tokens[i]) != NO_MATCH
    ensures TokenRanks(fields, tokens).Some? ==> TokenRanks(fields, tokens).value.sum <= 15 * |tokens|
  {
    hide Best, Numbered;
    if tokens != [] {
      var front, last := tokens[..|tokens| - 1], tokens[|tokens| - 1];
      TokenRanksMatch(fields, front);
      BestIsBounded(fields, last);
      assert tokens == front + [last];
      AllOfMore(fields, front, last);
    }
  }

  lemma {:induction false} AllOfMore(fields: seq<Field>, tokens: seq<string>, t: string)
    ensures (forall i :: 0 <= i < |tokens + [t]| ==> Best(fields, (tokens + [t])[i]) != NO_MATCH)
        <==> (forall i :: 0 <= i < |tokens| ==> Best(fields, tokens[i]) != NO_MATCH) && Best(fields, t) != NO_MATCH
  {
    hide Best;
    var more := tokens + [t];
    assert more[|tokens|] == t;
    assert forall i :: 0 <= i < |tokens| ==> more[i] == tokens[i];
  }

  function ScoreOf(d: Description, id: string, index: nat, q: Query): Option<MatchScore> {
    var name := FoldAscii(if d.name.Some? then d.name.value else "");
    if q.tokens == [] then Some(MatchScore(0, 0, 0, name, id, index))
    else
      match TokenRanks(Fields(d), q.tokens)
      case None => None
      case Some(ranks) => Some(MatchScore(Best(Fields(d), q.phrase), ranks.sum, ranks.worst, name, id, index))
  }

  /** An application matches exactly when every token occurs in one of its folded fields. */
  lemma {:induction false} MatchesWhenAllTokensOccur(d: Description, id: string, index: nat, q: Query)
    ensures ScoreOf(d, id, index, q).Some? <==>
      forall i :: 0 <= i < |q.tokens| ==>
        exists f :: f in Fields(d) && ShapeOf(FoldAscii(f.text), q.tokens[i]).Some?
  {
    var fields := Fields(d);
    FieldsAreNumbered(d);
    TokenRanksMatch(fields, q.tokens);
    forall i | 0 <= i < |q.tokens|
      ensures Best(fields, q.tokens[i]) != NO_MATCH
          <==> exists f :: f in fields && ShapeOf(FoldAscii(f.text), q.tokens[i]).Some? {
      BestIsLeast(fields, q.tokens[i]);
    }
    hide Best, ShapeOf, FoldAscii, Fields;
  }

  lemma {:induction false} TokenRanksOfMore(fields: seq<Field>, tokens: seq<string>, i: nat)
    requires Numbered(fields) && i < |tokens| && TokenRanks(fields, tokens[..i]).Some?
    ensures Best(fields, tokens[i]) == NO_MATCH ==> TokenRanks(fields, tokens).None?
    ensures Best(fields, tokens[i]) != NO_MATCH ==>
              && TokenRanks(fields, tokens[..i + 1])
                  == Some(AddRank(TokenRanks(fields, tokens[..i]).value, Best(fields, tokens[i])))
              && TokenRanks(fields, tokens[..i + 1]).value.sum <= 15 * (i + 1)
  {
    var longer := tokens[..i + 1];
    assert longer[..i] == tokens[..i] && longer[|longer| - 1] == tokens[i];
    TokenRanksMatch(fields, longer);
    TokenRanksMatch(fields, tokens);
    assert TokenRanks(fields, longer) == if Best(fields, tokens[i]) == NO_MATCH then None
                                         else Some(AddRank(TokenRanks(fields, tokens[..i]).value,
                                                           Best(fields, tokens[i])));
    hide TokenRanks, Best;
  }

  lemma {:induction false} TokenRanksOfAll(fields: seq<Field>, tokens: seq<string>)
    ensures TokenRanks(fields, tokens[..0]) == Some(Ranks(0, 0))
    ensures TokenRanks(fields, tokens[..|tokens|]) == TokenRanks(fields, tokens)
  {
    assert tokens[..|tokens|] == tokens;
  }

  /** The sum is kept in sixteen bits, which it never exceeds. */
  method AddTokenRank(ranks: Ranks, rank: nat) returns (more: Ranks)
    requires AddRank(ranks, rank).sum < 0x10000
    ensures more == AddRank(ranks, rank)
  {
    more := Ranks((ranks.sum + rank) % 0x10000, if ranks.worst < rank then rank else ranks.worst);
  }

  method RankTokens(d: Description, tokens: seq<string>, token: CancellationToken)
      returns (ranks: Option<Ranks>, cancelled: bool)
    requires |tokens| <= MAXIMUM_QUERY_TOKENS && token.Quiet()
    modifies token
    ensures cancelled <==> !token.Quiet()
    ensures !cancelled ==> ranks == TokenRanks(Fields(d), tokens)
  {
    var soFar := Ranks(0, 0);
    FieldsAreNumbered(d);
    hide Fields, TokenRanks, Best, AddRank, Numbered;
    ghost var fields := Fields(d);
    TokenRanksOfAll(fields, tokens);
    for i := 0 to |tokens|
      invariant TokenRanks(fields, tokens[..i]) == Some(soFar)
      invariant token.Quiet()
    {
      var tokenRank;
      tokenRank, cancelled := BestMatch(d, tokens[i], token);
      TokenRanksOfMore(fields, tokens, i);
      if cancelled || tokenRank == NO_MATCH {
        return None, cancelled;
      }
      soFar := AddTokenRank(soFar, tokenRank);
    }
    return Some(soFar), false;
  }

  lemma {:induction false} FieldsAreNumbered(d: Description)
    ensures Numbered(Fields(d))
  {
  }

  method ScoreEntry(d: Description, id: string, index: nat, q: Query, token: CancellationToken)
      returns (score: Option<MatchScore>, cancelled: bool)
    requires |q.tokens| <= MAXIMUM_QUERY_TOKENS && token.Quiet()
    modifies token
    ensures cancelled <==> !token.Quiet()
    ensures !cancelled ==> score == ScoreOf(d, id, index, q)
  {
    hide FoldAscii, Fields, Best, TokenRanks;
    var name := FoldAscii(if d.name.Some? then d.name.value else "");
    if q.tokens == [] {
      return Some(MatchScore(0, 0, 0, name, id, index)), false;
    }
    var phraseRank, ranks;
    phraseRank, cancelled := BestMatch(d, q.phrase, token);
    if cancelled {
      return None, true;
    }
    ranks, cancelled := RankTokens(d, q.tokens, token);
    if cancelled || ranks.None? {
      return None, cancelled;
    }
    return Some(MatchScore(phraseRank, ranks.value.sum, ranks.value.worst, name, id, index)), false;
  }

  // ---------------------------------------------------------------- what ranks higher, said of the texts alone

  /** The four ways in which a folded text can hold a needle, the best first. */
  predicate HoldsIn(text: string, needle: string, how: nat) {
    match how
    case 0 => text == needle
    case 1 => needle <= text
    case 2 => exists p: nat :: 0 < p <= |text| && OccursAt(text, needle, p) && !IsWordByte(text[p - 1])
    case 3 => exists p: nat :: p <= |text| && OccursAt(text, needle, p)
    case _ => false
  }

  /** The four kinds of searched texts, the best first: name, generic name, keywords, categories. */
  predicate HasText(d: Description, kind: nat, text: string) {
    match kind
    case 0 => d.name == Some(text)
    case 1 => d.genericName == Some(text)
    case 2 => text in d.keywords
    case 3 => text in d.categories
    case _ => false
  }

  ghost predicate Hits(d: Description, needle: string, how: nat, kind: nat) {
    exists text :: HasText(d, kind, text) && HoldsIn(FoldAscii(text), needle, how)
  }

  lemma {:induction false} FieldsAreTexts(d: Description, f: Field)
    ensures f in Fields(d) <==> HasText(d, f.number, f.text)
  {
    var names, generics := FieldsOf(AsSeq(d.name), 0), FieldsOf(AsSeq(d.genericName), 1);
    var keywords, categories := FieldsOf(d.keywords, 2), FieldsOf(d.categories, 3);
    FieldIsListed(AsSeq(d.name), 0, f);
    FieldIsListed(AsSeq(d.genericName), 1, f);
    FieldIsListed(d.keywords, 2, f);
    FieldIsListed(d.categories, 3, f);
    hide FieldsOf;
    assert f in Fields(d) <==> f in names || f in generics || f in keywords || f in categories;
  }

  lemma {:induction false} FieldIsListed(texts: seq<string>, number: nat, f: Field)
    ensures f in FieldsOf(texts, number) <==> f.number == number && f.text in texts
  {
    if f.number == number && f.text in texts {
      var i :| 0 <= i < |texts| && texts[i] == f.text;
      assert FieldsOf(texts, number)[i] == f;
    }
  }

  /** The shape of a match is the best way in which the text holds the needle. */
  lemma {:induction false} ShapeIsBest(text: string, needle: string, how: nat)
    requires how <= 3
    ensures (ShapeOf(text, needle).Some? && ShapeNumber(ShapeOf(text, needle).value) <= how)
        <==> exists h :: 0 <= h <= how && HoldsIn(text, needle, h)
  {
    if ShapeOf(text, needle).Some? {
      assert HoldsIn(text, needle, ShapeNumber(ShapeOf(text, needle).value));
    }
    if h :| 0 <= h <= how && HoldsIn(text, needle, h) {
      if h == 0 {
      } else if h == 1 {
        assert OccursAt(text, needle, 0);
      } else if h == 2 {
        var p: nat :| 0 < p <= |text| && OccursAt(text, needle, p) && !IsWordByte(text[p - 1]);
        assert StartsWordAt(text, needle, p);
      } else {
      }
    }
  }

  /**
   The best rank of a needle orders applications by how it occurs and then by where: the rank is at most that
   of a way and a kind exactly when some text hits it in a better way, or in the same way and no worse a kind.
   */
  lemma {:induction false} RankMeans(d: Description, needle: string, how: nat, kind: nat)
    requires how <= 3 && kind <= 3
    ensures Best(Fields(d), needle) <= 4 * how + kind
        <==> exists h, k :: 0 <= h <= 3 && 0 <= k <= 3 && (h < how || (h == how && k <= kind)) && Hits(d, needle, h, k)
  {
    var fields := Fields(d);
    FieldsAreNumbered(d);
    BestIsLeast(fields, needle);
    hide Best, ShapeOf, FoldAscii, Fields, HoldsIn, HasText;
    if Best(fields, needle) <= 4 * how + kind {
      var i :| 0 <= i < |fields| && FieldRank(fields[i], needle) == Best(fields, needle);
      var f := fields[i];
      var text := FoldAscii(f.text);
      var n := ShapeNumber(ShapeOf(text, needle).value);
      ShapeIsBest(text, needle, n);
      var h :| 0 <= h <= n && HoldsIn(text, needle, h);
      FieldsAreTexts(d, f);
      assert Hits(d, needle, h, f.number);
    }
    if h, k :| 0 <= h <= 3 && 0 <= k <= 3 && (h < how || (h == how && k <= kind)) && Hits(d, needle, h, k) {
      var text :| HasText(d, k, text) && HoldsIn(FoldAscii(text), needle, h);
      FieldsAreTexts(d, Field(text, k));
      ShapeIsBest(FoldAscii(text), needle, h);
      var i :| 0 <= i < |fields| && fields[i] == Field(text, k);
      assert FieldRank(fields[i], needle) <= 4 * h + k;
    }
  }

  /** The order of byte strings: a proper prefix comes first, otherwise the first difference decides. */
  predicate TextBefore(a: string, b: string) {
    exists n: nat :: n <= |a| && n <= |b| && a[..n] == b[..n] && n < |b| && (n == |a| || a[n] < b[n])
  }

  lemma {:induction false} LexLessIsTextBefore(a: string, b: string)
    ensures LexLess(a, b) <==> TextBefore(a, b)
    decreases |a|
  {
    if b != "" && a != "" && a[0] == b[0] {
      LexLessIsTextBefore(a[1..], b[1..]);
      if TextBefore(a[1..], b[1..]) {
        var n: nat :| n <= |a| - 1 && n <= |b| - 1 && a[1..][..n] == b[1..][..n] && n < |b| - 1
                      && (n == |a| - 1 || a[1..][n] < b[1..][n]);
        assert a[..n + 1] == [a[0]] + a[1..][..n] && b[..n + 1] == [b[0]] + b[1..][..n];
      }
      if TextBefore(a, b) {
        var n: nat :| n <= |a| && n <= |b| && a[..n] == b[..n] && n < |b| && (n == |a| || a[n] < b[n]);
        assert a[1..][..n - 1] == a[..n][1..] && b[1..][..n - 1] == b[..n][1..];
      }
    } else if b != "" && (a == "" || a[0] < b[0]) {
      assert a[..0] == b[..0];
    }
  }

  function RankSum(d: Description, tokens: seq<string>): nat {
    if tokens == [] then 0 else Best(Fields(d), tokens[0]) + RankSum(d, tokens[1..])
  }

  function WorstRank(d: Description, tokens: seq<string>): nat {
    if tokens == [] then 0
    else
      var rest := WorstRank(d, tokens[1..]);
      if rest < Best(Fields(d), tokens[0]) then Best(Fields(d), tokens[0]) else rest
  }

  lemma {:induction false} RanksOfMore(d: Description, tokens: seq<string>, t: string)
    ensures RankSum(d, tokens + [t]) == RankSum(d, tokens) + Best(Fields(d), t)
    ensures WorstRank(d, tokens + [t])
         == if WorstRank(d, tokens) < Best(Fields(d), t) then Best(Fields(d), t) else WorstRank(d, tokens)
  {
    hide Fields, Best;
    if tokens != [] {
      RanksOfMore(d, tokens[1..], t);
      assert (tokens + [t])[1..] == tokens[1..] + [t];
    } else {
      assert (tokens + [t])[1..] == [];
    }
  }

  lemma {:induction false} TokenRanksAre(d: Description, tokens: seq<string>)
    requires TokenRanks(Fields(d), tokens).Some?
    ensures TokenRanks(Fields(d), tokens).value == Ranks(RankSum(d, tokens), WorstRank(d, tokens))
  {
    hide Fields, Best;
    if tokens != [] {
      var front := tokens[..|tokens| - 1];
      TokenRanksAre(d, front);
      RanksOfMore(d, front, tokens[|tokens| - 1]);
      assert tokens == front + [tokens[|tokens| - 1]];
    }
  }

  /** An application as a search sees it. */
  datatype Candidate = Candidate(d: Description, id: string, index: nat)

  predicate Matches(c: Candidate, q: Query) {
    forall i :: 0 <= i < |q.tokens| ==> OccursInSome(c.d, q.tokens[i])
  }

  predicate OccursInSome(d: Description, needle: string) {
    exists f :: f in Fields(d) && exists p: nat :: p <= |f.text| && OccursAt(FoldAscii(f.text), needle, p)
  }

  function FoldedName(c: Candidate): string {
    FoldAscii(if c.d.name.Some? then c.d.name.value else "")
  }

  /**
   Whether one application comes before another: by the best rank of the phrase, the sum of the best ranks of
   the tokens, the worst of them, the folded name, the identifier and the index. A blank query has no ranks.
   */
  predicate ComesBefore(a: Candidate, b: Candidate, q: Query) {
    var pa, pb := Best(Fields(a.d), q.phrase), Best(Fields(b.d), q.phrase);
    var sa, sb := RankSum(a.d, q.tokens), RankSum(b.d, q.tokens);
    var wa, wb := WorstRank(a.d, q.tokens), WorstRank(b.d, q.tokens);
    var blank := q.tokens == [];
    || (!blank && pa < pb)
    || (!blank && pa == pb && sa < sb)
    || (!blank && pa == pb && sa == sb && wa < wb)
    || ((blank || (pa == pb && sa == sb && wa == wb))
        && (|| TextBefore(FoldedName(a), FoldedName(b))
            || (FoldedName(a) == FoldedName(b) && TextBefore(a.id, b.id))
            || (FoldedName(a) == FoldedName(b) && a.id == b.id && a.index < b.index)))
  }

  predicate EqualsSome(d: Description, needle: string) {
    exists f :: f in Fields(d) && FoldAscii(f.text) == needle
  }

  lemma {:induction false} ExactNameIsBest(d: Description, needle: string)
    requires d.name.Some? && FoldAscii(d.name.value) == needle
    ensures Best(Fields(d), needle) == 0
  {
    assert HasText(d, 0, d.name.value) && HoldsIn(FoldAscii(d.name.value), needle, 0);
    assert Hits(d, needle, 0, 0);
    RankMeans(d, needle, 0, 0);
  }

  lemma {:induction false} UnequalIsWorse(d: Description, needle: string)
    requires !EqualsSome(d, needle)
    ensures Best(Fields(d), needle) > 3
  {
    RankMeans(d, needle, 0, 3);
    hide Best, Fields, FoldAscii, HasText;
    if k :| 0 <= k <= 3 && Hits(d, needle, 0, k) {
      var text :| HasText(d, k, text) && HoldsIn(FoldAscii(text), needle, 0);
      FieldsAreTexts(d, Field(text, k));
    }
  }

  lemma {:induction false} TokenOccurs(tokens: seq<string>, i: nat) returns (p: nat)
    requires i < |tokens|
    ensures p <= |Phrase(tokens)| && OccursAt(Phrase(tokens), tokens[i], p)
  {
    if i == 0 {
      p := 0;
    } else {
      var q := TokenOccurs(tokens[1..], i - 1);
      p := |tokens[0]| + 1 + q;
      var rest := Phrase(tokens[1..]);
      assert Phrase(tokens)[p..p + |tokens[i]|] == rest[q..q + |tokens[i]|];
    }
  }

  lemma {:induction false} ExactNameMatches(c: Candidate, q: Query)
    requires q.phrase == Phrase(q.tokens) && c.d.name.Some? && FoldAscii(c.d.name.value) == q.phrase
    ensures Matches(c, q)
  {
    var f := Field(c.d.name.value, 0);
    FieldsAreTexts(c.d, f);
    forall i | 0 <= i < |q.tokens| ensures OccursInSome(c.d, q.tokens[i]) {
      var p := TokenOccurs(q.tokens, i);
      assert f in Fields(c.d) && OccursAt(FoldAscii(f.text), q.tokens[i], p);
    }
  }

  lemma {:induction false} ExactBeatsUnequal(exact: Candidate, other: Candidate, q: Query)
    requires q.tokens != [] && q.phrase == Phrase(q.tokens)
    requires exact.d.name.Some? && FoldAscii(exact.d.name.value) == q.phrase && !EqualsSome(other.d, q.phrase)
    ensures Matches(exact, q) && ComesBefore(exact, other, q) && !ComesBefore(other, exact, q)
  {
    ExactNameMatches(exact, q);
    ExactNameIsBest(exact.d, q.phrase);
    UnequalIsWorse(other.d, q.phrase);
    hide Matches, Fields, Best, FoldAscii, EqualsSome, TextBefore, RankSum, WorstRank, Phrase, FoldedName;
  }

  function ScoreOfCandidate(c: Candidate, q: Query): Option<MatchScore> {
    ScoreOf(c.d, c.id, c.index, q)
  }

  lemma {:induction false} ShapedOccurs(text: string, needle: string)
    ensures ShapeOf(text, needle).Some? <==> exists p: nat :: p <= |text| && OccursAt(text, needle, p)
  {
    ShapeIsBest(text, needle, 3);
    if h :| 0 <= h <= 3 && HoldsIn(text, needle, h) {
      if h <= 1 {
        assert OccursAt(text, needle, 0);
      }
    }
    if p: nat :| p <= |text| && OccursAt(text, needle, p) {
      assert HoldsIn(text, needle, 3);
    }
  }

  lemma {:induction false} ScoredMatches(c: Candidate, q: Query)
    ensures ScoreOfCandidate(c, q).Some? <==> Matches(c, q)
  {
    MatchesWhenAllTokensOccur(c.d, c.id, c.index, q);
    forall needle, f: Field
      ensures ShapeOf(FoldAscii(f.text), needle).Some?
          <==> exists p: nat :: p <= |f.text| && OccursAt(FoldAscii(f.text), needle, p) {
      ShapedOccurs(FoldAscii(f.text), needle);
    }
    hide ShapeOf, FoldAscii, Fields, ScoreOf;
  }

  /** Among matching applications the scores are ordered as the applications are. */
  lemma {:induction false} ScoresCompare(a: Candidate, b: Candidate, q: Query)
    requires ScoreOfCandidate(a, q).Some? && ScoreOfCandidate(b, q).Some?
    ensures ScoreLess(ScoreOfCandidate(a, q).value, ScoreOfCandidate(b, q).value) <==> ComesBefore(a, b, q)
  {
    if q.tokens != [] {
      TokenRanksAre(a.d, q.tokens);
      TokenRanksAre(b.d, q.tokens);
    }
    LexLessIsTextBefore(FoldedName(a), FoldedName(b));
    LexLessIsTextBefore(a.id, b.id);
    LexIrreflexive(a.id);
    LexIrreflexive(FoldedName(a));
    hide Fields, Best, TokenRanks, RankSum, WorstRank, FoldAscii, LexLess, TextBefore;
  }

  // ---------------------------------------------------------------- the streaming search

  datatype ViewState = Loading | Results | EmptyCatalog | NoResults

  datatype Snapshot = Snapshot(
    catalogGeneration: nat, requestGeneration: nat, state: ViewState, examined: nat, total: nat,
    results: seq<nat>, truncated: bool)

  function EntryIndices(matches: seq<MatchScore>): (r: seq<nat>)
    ensures |r| == |matches| && forall i :: 0 <= i < |r| ==> r[i] == matches[i].entryIndex
  {
    seq(|matches|, i requires 0 <= i < |matches| => matches[i].entryIndex)
  }

  class Search {
    const catalog: ApplicationCatalog.Snapshot
    const describe: Discovery.Entry -> Description
    const requestGeneration: nat
    const query: Query
    const resultLimit: nat
    var cursor: nat
    var matches: seq<MatchScore>
    var truncated: bool
    var cancellationObserved: bool

    ghost predicate Acceptable() {
      && ApplicationCatalog.SearchAccepts(catalog) && requestGeneration != 0
      && 0 < resultLimit <= MAXIMUM_RESULTS && |query.tokens| <= MAXIMUM_QUERY_TOKENS
      && (forall i :: 0 <= i < |catalog.eligible| ==> catalog.eligible[i] < |catalog.discovery.entries|)
    }

    /** The score of the i-th eligible application. */
    ghost function ScoreAt(i: nat): Option<MatchScore>
      requires Acceptable() && i < |catalog.eligible|
    {
      var entry := catalog.discovery.entries[catalog.eligible[i]];
      ScoreOf(describe(entry), entry.id, catalog.eligible[i], query)
    }

    /** The scores of the matching applications among the first n, in the order of examination. */
    ghost function Matching(n: nat): seq<MatchScore>
      requires Acceptable() && n <= |catalog.eligible|
    {
      if n == 0 then []
      else Matching(n - 1) + match ScoreAt(n - 1) case None => [] case Some(score) => [score]
    }

    /** What a search that has examined n applications holds. */
    ghost predicate Holds(n: nat, results: seq<MatchScore>, cut: bool)
      requires Acceptable() && n <= |catalog.eligible|
    {
      results == Smallest(ScoreLess, Matching(n), resultLimit) && (cut <==> |Matching(n)| > resultLimit)
    }

    ghost predicate Valid()
      reads this
    {
      Acceptable() && cursor <= |catalog.eligible| && Holds(cursor, matches, truncated)
    }

    constructor (catalog: ApplicationCatalog.Snapshot, describe: Discovery.Entry -> Description, requestGeneration: nat,
                 query: Query, resultLimit: nat)
      requires ApplicationCatalog.SearchAccepts(catalog) && requestGeneration != 0
      requires 0 < resultLimit <= MAXIMUM_RESULTS && |query.tokens| <= MAXIMUM_QUERY_TOKENS
      ensures Valid() && cursor == 0 && !cancellationObserved
      ensures this.catalog == catalog && this.describe == describe && this.requestGeneration == requestGeneration
      ensures this.query == query && this.resultLimit == resultLimit
    {
      this.catalog, this.describe, this.requestGeneration := catalog, describe, requestGeneration;
      this.query, this.resultLimit := query, resultLimit;
      cursor, matches, truncated, cancellationObserved := 0, [], false, false;
      new;
      EligibleInRange(catalog);
      NothingKept(resultLimit);
    }

    /** Inserting at the lower bound and dropping the last keeps the smallest scores. */
    method Retain(score: MatchScore, ghost before: seq<MatchScore>)
      requires resultLimit > 0 && matches == Smallest(ScoreLess, before, resultLimit)
      requires truncated <==> |before| > resultLimit
      modifies `matches, `truncated
      ensures matches == Smallest(ScoreLess, before + [score], resultLimit)
      ensures truncated <==> |before + [score]| > resultLimit
    {
      ScoreIsStrictOrder();
      SmallestOfMore(ScoreLess, before, score, resultLimit);
      SmallestIsSorted(ScoreLess, before, resultLimit);
      hide Smallest, ScoreLess, StrictOrder, Sorted, LowerBound;
      var position := LowerBound(ScoreLess, matches, score);
      ghost var inserted := Insert(ScoreLess, matches, score);
      assert inserted == matches[..position] + [score] + matches[position..];
      hide Insert;
      if |matches| < resultLimit {
        matches := matches[..position] + [score] + matches[position..];
        return;
      }
      truncated := true;
      if position < |matches| {
        matches := matches[..position] + [score] + matches[position..];
        matches := matches[..|matches| - 1];
      } else {
        assert matches == inserted[..resultLimit];
      }
    }

    ghost function CandidateAt(entry: nat): Candidate
      requires entry < |catalog.discovery.entries|
    {
      var found := catalog.discovery.entries[entry];
      Candidate(describe(found), found.id, entry)
    }

    /**
     The results are matching applications in order, none left out is better than one kept, and something is
     left out only when the limit is reached, which `cut` tells.
     */
    ghost predicate Ranked(n: nat, results: seq<nat>, cut: bool)
      requires Acceptable() && n <= |catalog.eligible|
    {
      && |results| <= resultLimit
      && (forall i :: 0 <= i < |results| ==>
            results[i] in catalog.eligible[..n] && Matches(CandidateAt(results[i]), query))
      && (forall i, j :: 0 <= i < j < |results| ==>
            ComesBefore(CandidateAt(results[i]), CandidateAt(results[j]), query))
      && (forall e :: e in catalog.eligible[..n] && Matches(CandidateAt(e), query) && e !in results ==>
            && |results| == resultLimit
            && forall i :: 0 <= i < |results| ==> ComesBefore(CandidateAt(results[i]), CandidateAt(e), query))
      && (cut <==> exists e :: e in catalog.eligible[..n] && Matches(CandidateAt(e), query) && e !in results)
    }

    /** The scores are those of the matching applications, each once. */
    lemma {:induction false} MatchingAre(n: nat)
      requires Acceptable() && n <= |catalog.eligible|
      ensures forall m :: m in Matching(n) ==>
        m.entryIndex in catalog.eligible[..n] && ScoreOfCandidate(CandidateAt(m.entryIndex), query) == Some(m)
      ensures forall e :: e in catalog.eligible[..n] && Matches(CandidateAt(e), query) ==>
        exists m :: m in Matching(n) && m.entryIndex == e
      ensures forall i, j :: 0 <= i < j < |Matching(n)| ==> Matching(n)[i].entryIndex != Matching(n)[j].entryIndex
    {
      hide ScoreOf, Matches;
      if n > 0 {
        MatchingAre(n - 1);
        var e := catalog.eligible[n - 1];
        ScoredMatches(CandidateAt(e), query);
        ScoreKnowsItsIndex(CandidateAt(e), query);
        EligibleOnce(catalog);
        assert catalog.eligible[..n] == catalog.eligible[..n - 1] + [e];
        assert e !in catalog.eligible[..n - 1];
      }
    }

    /** The sorted scores belong to the matching applications, in order. */
    ghost predicate Arranged(n: nat, sorted: seq<MatchScore>)
      requires Acceptable() && n <= |catalog.eligible|
    {
      && (forall i :: 0 <= i < |sorted| ==> sorted[i].entryIndex in catalog.eligible[..n])
      && (forall i :: 0 <= i < |sorted| ==> Matches(CandidateAt(sorted[i].entryIndex), query))
      && (forall i, j :: 0 <= i < j < |sorted| ==> sorted[i].entryIndex != sorted[j].entryIndex)
      && (forall i, j :: 0 <= i < j < |sorted| ==>
            ComesBefore(CandidateAt(sorted[i].entryIndex), CandidateAt(sorted[j].entryIndex), query))
      && (forall e :: e in catalog.eligible[..n] && Matches(CandidateAt(e), query) ==>
            exists k :: 0 <= k < |sorted| && sorted[k].entryIndex == e)
    }

    lemma {:induction false} SortedMatch(n: nat, m: MatchScore)
      requires Acceptable() && n <= |catalog.eligible| && m in Matching(n)
      ensures m.entryIndex in catalog.eligible[..n] && Matches(CandidateAt(m.entryIndex), query)
      ensures ScoreOfCandidate(CandidateAt(m.entryIndex), query) == Some(m)
    {
      MatchingAre(n);
      hide ScoreOf, Matches, Matching;
      ScoredMatches(CandidateAt(m.entryIndex), query);
    }

    lemma {:induction false} SmallerComesBefore(n: nat, a: MatchScore, b: MatchScore)
      requires Acceptable() && n <= |catalog.eligible| && a in Matching(n) && b in Matching(n) && ScoreLess(a, b)
      ensures a.entryIndex < |catalog.discovery.entries| && b.entryIndex < |catalog.discovery.entries|
      ensures ComesBefore(CandidateAt(a.entryIndex), CandidateAt(b.entryIndex), query)
    {
      SortedMatch(n, a);
      SortedMatch(n, b);
      hide ScoreOf, Matches, Matching, ScoreLess, ComesBefore;
      ScoresCompare(CandidateAt(a.entryIndex), CandidateAt(b.entryIndex), query);
    }

    /** The matching scores in strict order. */
    ghost predicate InOrder(n: nat, sorted: seq<MatchScore>)
      requires Acceptable() && n <= |catalog.eligible|
    {
      && (forall m :: m in sorted <==> m in Matching(n))
      && (forall i, j :: 0 <= i < j < |sorted| ==> sorted[i].entryIndex != sorted[j].entryIndex)
      && (forall i, j :: 0 <= i < j < |sorted| ==> ScoreLess(sorted[i], sorted[j]))
    }

    lemma {:induction false} SortedIsInOrder(n: nat)
      requires Acceptable() && n <= |catalog.eligible|
      ensures InOrder(n, Sort(ScoreLess, Matching(n)))
    {
      hide Sort, Matching, ScoreLess, Matches, Sorted, StrictOrder, ApplicationCatalog.SearchAccepts, ScoreOfCandidate;
      MatchingAre(n);
      ScoreIsStrictOrder();
      SortSorts(ScoreLess, Matching(n));
      SameElements(Matching(n), Sort(ScoreLess, Matching(n)));
      DistinctIsStrict(Sort(ScoreLess, Matching(n)));
    }

    lemma {:induction false} EveryMatchIsSorted(n: nat, sorted: seq<MatchScore>, e: nat) returns (k: nat)
      requires Acceptable() && n <= |catalog.eligible| && InOrder(n, sorted)
      requires e in catalog.eligible[..n] && Matches(CandidateAt(e), query)
      ensures k < |sorted| && sorted[k].entryIndex == e
    {
      MatchingAre(n);
      hide Matching, Matches, ScoreLess;
      var m :| m in Matching(n) && m.entryIndex == e;
      assert m in sorted;
      k :| 0 <= k < |sorted| && sorted[k] == m;
    }

    lemma {:induction false} SortedIsArranged(n: nat, sorted: seq<MatchScore>)
      requires Acceptable() && n <= |catalog.eligible| && InOrder(n, sorted)
      ensures Arranged(n, sorted)
    {
      hide Matching, Matches, ScoreLess, ComesBefore, CandidateAt, ApplicationCatalog.SearchAccepts;
      forall i | 0 <= i < |sorted|
        ensures sorted[i].entryIndex in catalog.eligible[..n] && Matches(CandidateAt(sorted[i].entryIndex), query) {
        SortedMatch(n, sorted[i]);
      }
      forall i, j | 0 <= i < j < |sorted|
        ensures ComesBefore(CandidateAt(sorted[i].entryIndex), CandidateAt(sorted[j].entryIndex), query) {
        SmallerComesBefore(n, sorted[i], sorted[j]);
      }
      forall e | e in catalog.eligible[..n] && Matches(CandidateAt(e), query)
        ensures exists k :: 0 <= k < |sorted| && sorted[k].entryIndex == e {
        var k := EveryMatchIsSorted(n, sorted, e);
      }
    }

    lemma {:induction false} CutIsRanked(n: nat, sorted: seq<MatchScore>)
      requires Acceptable() && n <= |catalog.eligible| && Arranged(n, sorted)
      ensures Ranked(n, EntryIndices(Take(sorted, resultLimit)), |sorted| > resultLimit)
    {
      hide Matches, ComesBefore, CandidateAt, ApplicationCatalog.SearchAccepts;
      var results := EntryIndices(Take(sorted, resultLimit));
      forall e | e in catalog.eligible[..n] && Matches(CandidateAt(e), query) && e !in results
        ensures exists k :: resultLimit <= k < |sorted| && sorted[k].entryIndex == e {
        var k :| 0 <= k < |sorted| && sorted[k].entryIndex == e;
        TakenIsListed(sorted, resultLimit, k);
      }
      if |sorted| > resultLimit {
        assert sorted[resultLimit].entryIndex !in results;
      }
    }

    /** What a search holds after n applications is ranked, whatever way it was computed. */
    lemma {:induction false} HeldIsRanked(n: nat)
      requires Acceptable() && n <= |catalog.eligible|
      ensures Ranked(n, EntryIndices(Smallest(ScoreLess, Matching(n), resultLimit)), |Matching(n)| > resultLimit)
    {
      hide Arranged, InOrder, Ranked, Acceptable, Matching, Sort, Take;
      SortedIsInOrder(n);
      SortedIsArranged(n, Sort(ScoreLess, Matching(n)));
      CutIsRanked(n, Sort(ScoreLess, Matching(n)));
    }

    /**
     An application whose name is the query stands before every result in which no searched text equals the
     query, and so is never cut off in favour of one.
     */
    lemma {:induction false} ExactNameComesFirst(n: nat, results: seq<nat>, cut: bool, e: nat, i: nat)
      requires Acceptable() && n <= |catalog.eligible| && Ranked(n, results, cut)
      requires query.tokens != [] && query.phrase == Phrase(query.tokens)
      requires e in catalog.eligible[..n] && describe(catalog.discovery.entries[e]).name.Some?
      requires FoldAscii(describe(catalog.discovery.entries[e]).name.value) == query.phrase
      requires i < |results| && !EqualsSome(describe(catalog.discovery.entries[results[i]]), query.phrase)
      ensures exists j :: 0 <= j < i && results[j] == e
    {
      var exact, other := CandidateAt(e), CandidateAt(results[i]);
      ExactBeatsUnequal(exact, other, query);
      hide Matches, ComesBefore, FoldAscii, EqualsSome, Phrase;
    }

    method Publish() returns (snapshot: Snapshot)
      requires Valid()
      ensures snapshot.results == EntryIndices(matches) && snapshot.truncated == truncated
      ensures snapshot.examined == cursor && snapshot.total == |catalog.eligible|
      ensures snapshot.catalogGeneration == catalog.generation && snapshot.requestGeneration == requestGeneration
      ensures snapshot.state == Loading <==> !(catalog.complete && cursor == |catalog.eligible|)
      ensures snapshot.state == EmptyCatalog <==> snapshot.state != Loading && catalog.eligible == []
      ensures snapshot.state == Results <==> snapshot.state != Loading && snapshot.results != []
    {
      var results := EntryIndices(matches);
      var state := Loading;
      EmptyCatalogMatchesNothing(cursor);
      if catalog.complete && cursor == |catalog.eligible| {
        if catalog.eligible == [] {
          state := EmptyCatalog;
        } else if results == [] {
          state := NoResults;
        } else {
          state := Results;
        }
      }
      snapshot := Snapshot(catalog.generation, requestGeneration, state, cursor, |catalog.eligible|, results,
        truncated);
    }

    lemma {:induction false} EmptyCatalogMatchesNothing(n: nat)
      requires Acceptable() && n <= |catalog.eligible|
      ensures catalog.eligible == [] ==> Smallest(ScoreLess, Matching(n), resultLimit) == []
    {
      if catalog.eligible == [] {
        NothingKept(resultLimit);
      }
    }

    /** One application is examined; false when the token was found cancelled. */
    method ExamineNext(token: CancellationToken) returns (cancelled: bool)
      requires Valid() && cursor < |catalog.eligible| && token.Quiet()
      modifies this, token
      ensures Valid() && cursor == old(cursor) + if cancelled then 0 else 1
      ensures cancellationObserved == old(cancellationObserved)
      ensures cancelled <==> !token.Quiet()
    {
      hide Smallest, ScoreLess, ScoreOf;
      var requested := token.IsCancellationRequested();
      if requested {
        return true;
      }
      var entryIndex := catalog.eligible[cursor];
      var entry := catalog.discovery.entries[entryIndex];
      var score;
      score, cancelled := ScoreEntry(describe(entry), entry.id, entryIndex, query, token);
      if cancelled {
        return;
      }
      ghost var before := Matching(cursor);
      if score.Some? {
        Retain(score.value, before);
      } else {
        assert before + [] == before;
      }
      cursor := cursor + 1;
    }

    /** The loop of a batch. */
    method ExamineBatch(maximumWorkUnits: nat, token: CancellationToken) returns (cancelled: bool)
      requires Valid() && token.Quiet()
      modifies this, token
      ensures Valid() && cancellationObserved == old(cancellationObserved)
      ensures cancelled <==> !token.Quiet()
      ensures old(cursor) <= cursor
      ensures !cancelled ==>
        cursor == if old(cursor) + maximumWorkUnits <= |catalog.eligible| then old(cursor) + maximumWorkUnits
          else |catalog.eligible|
    {
      hide Acceptable, Holds;
      var workUnits := 0;
      while cursor < |catalog.eligible| && workUnits < maximumWorkUnits
        invariant Valid() && cancellationObserved == old(cancellationObserved)
        invariant token.Quiet()
        invariant cursor == old(cursor) + workUnits && workUnits <= maximumWorkUnits
      {
        cancelled := ExamineNext(token);
        if cancelled {
          return;
        }
        workUnits := workUnits + 1;
      }
      cancelled := false;
    }

    /**
     One batch. Cancellation is final. A successful batch publishes the best results of the applications
     examined so far, whatever the sizes of the batches were; when all are examined these are the first results
     of the fully sorted list, truncated exactly when more matched.
     */
    method Advance(maximumWorkUnits: nat, token: CancellationToken) returns (r: Result<Snapshot>)
      requires Valid()
      modifies this, token
      ensures Valid()
      ensures maximumWorkUnits == 0 || maximumWorkUnits > MAXIMUM_WORK_UNITS ==>
        r == Failure(InvalidArgument) && cursor == old(cursor)
      ensures r.Failure? && 0 < maximumWorkUnits <= MAXIMUM_WORK_UNITS ==> r.error == Cancelled && cancellationObserved
      ensures 0 < maximumWorkUnits <= MAXIMUM_WORK_UNITS && !old(cancellationObserved) ==>
        (r.Success? <==> token.Quiet())
      ensures old(cancellationObserved) ==> r.Failure? && cancellationObserved && cursor == old(cursor)
      ensures r.Success? ==>
        && cursor == (if old(cursor) + maximumWorkUnits <= |catalog.eligible| then old(cursor) + maximumWorkUnits
            else |catalog.eligible|)
        && r.value.results == EntryIndices(Smallest(ScoreLess, Matching(cursor), resultLimit))
        && (r.value.truncated <==> |Matching(cursor)| > resultLimit)
        && Ranked(cursor, r.value.results, r.value.truncated)
        && r.value.examined == cursor
      ensures r.Success? && cursor == |catalog.eligible| ==>
        r.value.results == EntryIndices(Take(Sort(ScoreLess, Matching(|catalog.eligible|)), resultLimit))
    {
      if maximumWorkUnits == 0 || maximumWorkUnits > MAXIMUM_WORK_UNITS {
        return Failure(InvalidArgument);
      }
      if cancellationObserved {
        return Failure(Cancelled);
      }
      var requested := token.IsCancellationRequested();
      if requested {
        cancellationObserved := true;
        return Failure(Cancelled);
      }
      hide ScoreLess, Matching, Smallest, Sort, Take, Ranked, Acceptable;
      var cancelled := ExamineBatch(maximumWorkUnits, token);
      if cancelled {
        cancellationObserved := true;
        return Failure(Cancelled);
      }
      requested := token.IsCancellationRequested();
      if requested {
        cancellationObserved := true;
        return Failure(Cancelled);
      }
      var snapshot := Publish();
      HeldIsRanked(cursor);
      return Success(snapshot);
    }
  }

  lemma {:induction false} TakenIsListed(sorted: seq<MatchScore>, limit: nat, k: nat)
    requires k < |sorted|
    ensures k < limit ==> sorted[k].entryIndex in EntryIndices(Take(sorted, limit))
  {
    if k < limit {
      assert EntryIndices(Take(sorted, limit))[k] == sorted[k].entryIndex;
    }
  }

  lemma {:induction false} ScoreKnowsItsIndex(c: Candidate, q: Query)
    ensures ScoreOfCandidate(c, q).Some? ==> ScoreOfCandidate(c, q).value.entryIndex == c.index
  {
    hide FoldAscii, Fields, TokenRanks, Best;
  }

  lemma {:induction false} DistinctIsStrict(sorted: seq<MatchScore>)
    requires StrictOrder(ScoreLess) && Sorted(ScoreLess, sorted)
    requires forall i, j :: 0 <= i < j < |sorted| ==> sorted[i].entryIndex != sorted[j].entryIndex
    ensures forall i, j :: 0 <= i < j < |sorted| ==> ScoreLess(sorted[i], sorted[j])
  {
    hide ScoreLess;
  }

  /** Rearranging scores of different applications keeps them and keeps them different. */
  lemma {:induction false} SameElements(a: seq<MatchScore>, b: seq<MatchScore>)
    requires multiset(a) == multiset(b)
    requires forall i, j :: 0 <= i < j < |a| ==> a[i].entryIndex != a[j].entryIndex
    ensures |a| == |b| && forall m :: m in a <==> m in b
    ensures forall i, j :: 0 <= i < j < |b| ==> b[i].entryIndex != b[j].entryIndex
  {
    assert |multiset(a)| == |a| && |multiset(b)| == |b|;
    forall m ensures m in a <==> m in b {
      assert m in a <==> m in multiset(a);
      assert m in b <==> m in multiset(b);
    }
    forall i, j | 0 <= i < j < |b| ensures b[i].entryIndex != b[j].entryIndex {
      if b[i].entryIndex == b[j].entryIndex {
        assert b[i] in a && b[j] in a;
        assert b[i] == b[j];
        OccursTwice(b, i, j);
        OccursOnce(a, b[i]);
      }
    }
  }

  lemma {:induction false} OccursTwice(s: seq<MatchScore>, i: nat, j: nat)
    requires i < j < |s| && s[i] == s[j]
    ensures multiset(s)[s[i]] >= 2
  {
    assert s == s[..i] + [s[i]] + s[i + 1..j] + [s[j]] + s[j + 1..];
  }

  lemma {:induction false} OccursOnce(s: seq<MatchScore>, m: MatchScore)
    requires forall i, j :: 0 <= i < j < |s| ==> s[i].entryIndex != s[j].entryIndex
    ensures multiset(s)[m] <= 1
  {
    if m in s {
      var i :| 0 <= i < |s| && s[i] == m;
      assert m !in s[..i] && m !in s[i + 1..];
      assert s == s[..i] + [m] + s[i + 1..];
      assert multiset(s[..i])[m] == 0 && multiset(s[i + 1..])[m] == 0;
    }
  }

  lemma {:induction false} EligibleOnce(c: ApplicationCatalog.Snapshot)
    requires ApplicationCatalog.SearchAccepts(c)
    ensures forall i, j :: 0 <= i < j < |c.eligible| ==> c.eligible[i] != c.eligible[j]
  {
    ApplicationCatalog.EligibleAreDistinct(c.decisions);
  }

  lemma {:induction false} NothingKept(k: nat)
    ensures Smallest(ScoreLess, [], k) == []
  {
  }

  lemma {:induction false} EligibleInRange(c: ApplicationCatalog.Snapshot)
    requires ApplicationCatalog.SearchAccepts(c)
    ensures forall i :: 0 <= i < |c.eligible| ==> c.eligible[i] < |c.discovery.entries|
  {
    ApplicationCatalog.EligibleAreDistinct(c.decisions);
    forall i | 0 <= i < |c.eligible| ensures c.eligible[i] < |c.discovery.entries| {
      assert c.eligible[i] in ApplicationCatalog.EligibleIndices(c.decisions);
      var k :| 0 <= k < |c.decisions| && c.decisions[k].entryIndex == c.eligible[i];
      assert c.decisions[k].entryIndex == c.discovery.visible[k];
    }
  }
}
