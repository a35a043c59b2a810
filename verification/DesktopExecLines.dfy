/**
 What a whole Exec line means, said of its text alone: arguments in quotes or bare, and percent signs with a
 letter, alone or between bare texts. The meaning of each letter is that of section 7 of the Desktop Entry
 Specification 1.5; expansion is proved to give exactly that meaning for every number of targets.
 */
module DesktopExecLines {
  import opened Foundation
  import opened DesktopExec

  /** A word of a line: a written argument, or a field code between two bare texts. */
  datatype Word = Plain(w: Written) | Code(prefix: string, letter: char, suffix: string)

  /** The letters of section 7 that take targets, that stand for several arguments, and that mean nothing any more. */
  predicate TakesTargets(letter: char) {
    letter == 'f' || letter == 'F' || letter == 'u' || letter == 'U'
  }

  predicate StandsAlone(letter: char) {
    letter == 'F' || letter == 'U' || letter == 'i'
  }

  predicate IsDeprecated(letter: char) {
    letter in "dDnNvm"
  }

  predicate IsLetter(letter: char) {
    TakesTargets(letter) || letter == 'i' || letter == 'c' || letter == 'k' || IsDeprecated(letter)
  }

  predicate IsAffix(a: string) {
    Printable(a) && forall i :: 0 <= i < |a| ==> a[i] != ' ' && !IsReservedUnquoted(a[i])
  }

  /** A letter that stands for several arguments must be the whole word. */
  predicate IsWord(word: Word) {
    match word
    case Plain(w) => Writable(w)
    case Code(prefix, letter, suffix) =>
      && IsLetter(letter) && IsAffix(prefix) && IsAffix(suffix)
      && (StandsAlone(letter) ==> prefix == "" && suffix == "")
  }

  function WriteWord(word: Word): string {
    match word
    case Plain(w) => Write(w)
    case Code(prefix, letter, suffix) => QuoteBody(prefix) + "%" + [letter] + QuoteBody(suffix)
  }

  function WriteLine(words: seq<Word>): string {
    if words == [] then ""
    else if |words| == 1 then WriteWord(words[0])
    else WriteWord(words[0]) + " " + WriteLine(words[1..])
  }

  // ---------------------------------------------------------------- what a line means

  function OrNothing(text: string): seq<string> {
    if text == "" then [] else [text]
  }

  /** The arguments that a word stands for in the invocation of that number. */
  function Meaning(word: Word, entry: ExecEntry, context: ExpansionContext, index: nat): seq<string>
    requires context.targets != [] ==> index < |context.targets|
  {
    match word
    case Plain(w) => [w.text]
    case Code(prefix, letter, suffix) =>
      if letter == 'f' || letter == 'u' then
        if context.targets == [] then OrNothing(prefix + suffix) else [prefix + context.targets[index] + suffix]
      else if letter == 'F' || letter == 'U' then context.targets
      else if letter == 'i' then
        if entry.icon.None? || entry.icon.value == "" then [] else ["--icon", entry.icon.value]
      else if letter == 'c' then [prefix + (if entry.name.Some? then entry.name.value else "") + suffix]
      else if letter == 'k' then [prefix + (if context.location.Some? then context.location.value else "") + suffix]
      else OrNothing(prefix + suffix)
  }

  function Meanings(words: seq<Word>, entry: ExecEntry, context: ExpansionContext, index: nat): seq<string>
    requires context.targets != [] ==> index < |context.targets|
  {
    if words == [] then []
    else Meaning(words[0], entry, context, index) + Meanings(words[1..], entry, context, index)
  }

  /** The letters of the line that take targets. */
  function TargetLetters(words: seq<Word>): seq<char> {
    if words == [] then []
    else
      (if words[0].Code? && TakesTargets(words[0].letter) then [words[0].letter] else []) + TargetLetters(words[1..])
  }

  /** One invocation per target for the small letters, and one for all of them otherwise. */
  function Count(words: seq<Word>, targets: seq<string>): (n: nat)
    ensures targets != [] ==> n <= |targets|
  {
    if targets != [] && (TargetLetters(words) == ['f'] || TargetLetters(words) == ['u']) then |targets| else 1
  }

  function AllMeanings(words: seq<Word>, entry: ExecEntry, context: ExpansionContext, index: nat, count: nat)
      : (r: seq<seq<string>>)
    requires index <= count && (context.targets != [] ==> count <= |context.targets|)
    ensures |r| == count - index
    ensures forall i :: index <= i < count ==> r[i - index] == Meanings(words, entry, context, i)
  {
    seq(count - index, k requires 0 <= k < count - index => Meanings(words, entry, context, index + k))
  }

  /** An argument vector within the limits. */
  predicate Fits(argv: seq<string>) {
    && |argv| <= MAXIMUM_ARGUMENTS && TotalBytes(argv) <= MAXIMUM_VECTOR_BYTES
    && forall i :: 0 <= i < |argv| ==> !HasNul(argv[i]) && |argv[i]| <= MAXIMUM_ARGUMENT_BYTES
  }

  /** The name is asked for only where there is one. */
  predicate NameGiven(words: seq<Word>, entry: ExecEntry) {
    (exists i :: 0 <= i < |words| && words[i].Code? && words[i].letter == 'c') ==>
      entry.name.Some? && entry.name.value != ""
  }

  // ---------------------------------------------------------------- reading a line

  function Literal(a: string): seq<ExecPart> {
    if a == "" then [] else [ExecPart(a, None)]
  }

  function Argument(word: Word): ExecArgument
    requires IsWord(word)
  {
    match word
    case Plain(w) => ReadBack(w)
    case Code(prefix, letter, suffix) =>
      LetterDecodes(letter);
      ExecArgument(Literal(prefix) + [ExecPart("", DecodeFieldCode(letter))] + Literal(suffix), false)
  }

  function ArgumentsOf(words: seq<Word>): (r: seq<ExecArgument>)
    requires forall i :: 0 <= i < |words| ==> IsWord(words[i])
    ensures |r| == |words| && forall i :: 0 <= i < |words| ==> r[i] == Argument(words[i])
  {
    seq(|words|, i requires 0 <= i < |words| => Argument(words[i]))
  }

  lemma {:induction false} LetterDecodes(letter: char)
    requires IsLetter(letter)
    ensures DecodeFieldCode(letter).Some? && IsAsciiLetter(letter)
    ensures IsTargetCode(DecodeFieldCode(letter).value) <==> TakesTargets(letter)
    ensures IsMultiArgumentCode(DecodeFieldCode(letter).value) <==> StandsAlone(letter)
  {
  }

  /** Characters appended one by one to an argument that has no open literal. */
  lemma {:induction false} AffixParts(a: string)
    requires IsAffix(a) && a != ""
    ensures IsAffix(a[1..]) && a[0] != ' ' && !IsReservedUnquoted(a[0])
  {
  }

  lemma {:induction false} UnquotedReadsText(read: string, a: string, rest: string, argument: ExecArgument,
      target: Option<FieldCode>)
    requires IsAffix(a)
    requires argument.parts != [] ==> argument.parts[|argument.parts| - 1].fieldCode.Some?
    ensures Unquoted(QuoteBody(a) + rest, argument.(parts := argument.parts + Literal(read)), target)
         == Unquoted(rest, argument.(parts := argument.parts + Literal(read + a)), target)
    decreases |a|
  {
    if a == "" {
      assert QuoteBody(a) + rest == rest && read + a == read;
    } else {
      AffixParts(a);
      hide IsReservedUnquoted, Unquoted, QuoteChar, IsAffix;
      var c := a[0];
      var tail := QuoteBody(a[1..]) + rest;
      assert QuoteBody(a) + rest == QuoteChar(c) + tail;
      assert read + [c] + a[1..] == read + a;
      UnquotedReadsChar(c, tail, argument.(parts := argument.parts + Literal(read)), target);
      LiteralMore(argument, read, c);
      UnquotedReadsText(read + [c], a[1..], rest, argument, target);
    }
  }

  lemma {:induction false} LiteralMore(argument: ExecArgument, read: string, c: char)
    requires argument.parts != [] ==> argument.parts[|argument.parts| - 1].fieldCode.Some?
    ensures AppendLiteral(argument.(parts := argument.parts + Literal(read)), c)
         == argument.(parts := argument.parts + Literal(read + [c]))
  {
    var parts := argument.parts + Literal(read);
    if read == "" {
      assert parts == argument.parts && read + [c] == [c];
    } else {
      assert parts[..|parts| - 1] == argument.parts;
    }
  }

  lemma {:induction false} UnquotedReadsCode(letter: char, rest: string, argument: ExecArgument,
      target: Option<FieldCode>)
    requires IsLetter(letter) && (TakesTargets(letter) ==> target.None?)
    ensures DecodeFieldCode(letter).Some?
    ensures Unquoted("%" + [letter] + rest, argument, target)
         == Unquoted(rest, AppendFieldCode(argument, DecodeFieldCode(letter).value),
                     if TakesTargets(letter) then DecodeFieldCode(letter) else target)
  {
    LetterDecodes(letter);
    ReservedHoldsEscaped('%');
    var s := "%" + [letter] + rest;
    assert s[0] == '%' && s[1] == letter && s[2..] == rest;
    hide IsReservedUnquoted, DecodeFieldCode;
  }

  function Observed(word: Word, target: Option<FieldCode>): Option<FieldCode> {
    if word.Code? && TakesTargets(word.letter) then DecodeFieldCode(word.letter) else target
  }

  lemma {:induction false} ReadAffix(a: string, rest: string, argument: ExecArgument, target: Option<FieldCode>)
    requires IsAffix(a)
    requires argument.parts != [] ==> argument.parts[|argument.parts| - 1].fieldCode.Some?
    ensures Unquoted(QuoteBody(a) + rest, argument, target)
         == Unquoted(rest, argument.(parts := argument.parts + Literal(a)), target)
  {
    assert argument.parts + Literal("") == argument.parts && "" + a == a;
    UnquotedReadsText("", a, rest, argument, target);
  }

  lemma {:induction false} ReadSuffix(a: string, rest: string, argument: ExecArgument, target: Option<FieldCode>)
    requires IsAffix(a) && (rest == "" || rest[0] == ' ')
    requires argument.parts != [] ==> argument.parts[|argument.parts| - 1].fieldCode.Some?
    ensures Unquoted(QuoteBody(a) + rest, argument, target)
         == Done((argument.(parts := argument.parts + Literal(a)), rest, target))
  {
    ReadAffix(a, rest, argument, target);
    UnquotedEnds(rest, argument.(parts := argument.parts + Literal(a)), target);
  }

  lemma {:induction false} ReadCodeWord(word: Word, rest: string, target: Option<FieldCode>)
    requires IsWord(word) && word.Code? && (rest == "" || rest[0] == ' ')
    requires TakesTargets(word.letter) ==> target.None?
    ensures Unquoted(WriteWord(word) + rest, ExecArgument([], false), target)
         == Done((Argument(word), rest, Observed(word, target)))
  {
    var letter := word.letter;
    var tail := QuoteBody(word.suffix) + rest;
    assert WriteWord(word) + rest == QuoteBody(word.prefix) + ("%" + [letter] + tail);
    LetterDecodes(letter);
    hide Unquoted, DecodeFieldCode, IsAffix, QuoteBody;
    var before := ExecArgument(Literal(word.prefix), false);
    assert [] + Literal(word.prefix) == Literal(word.prefix);
    ReadAffix(word.prefix, "%" + [letter] + tail, ExecArgument([], false), target);
    UnquotedReadsCode(letter, tail, before, target);
    var after := AppendFieldCode(before, DecodeFieldCode(letter).value);
    ReadSuffix(word.suffix, rest, after, Observed(word, target));
    assert after.parts + Literal(word.suffix) == Argument(word).parts;
  }

  lemma {:induction false} UnquotedEnds(rest: string, argument: ExecArgument, target: Option<FieldCode>)
    requires rest == "" || rest[0] == ' '
    ensures Unquoted(rest, argument, target) == Done((argument, rest, target))
  {
  }

  lemma {:induction false} CodeWordStarts(word: Word)
    requires IsWord(word) && word.Code?
    ensures WriteWord(word) != "" && WriteWord(word)[0] != ' ' && WriteWord(word)[0] != '"'
  {
    ReservedHoldsEscaped('%');
    if word.prefix != "" {
      ReservedHoldsEscaped(word.prefix[0]);
      hide IsReservedUnquoted;
      assert QuoteBody(word.prefix)[0] == QuoteChar(word.prefix[0])[0];
      assert WriteWord(word)[0] == QuoteBody(word.prefix)[0];
    } else {
      hide IsReservedUnquoted;
      assert WriteWord(word)[0] == '%';
    }
  }

  /** One word is read, and reading continues after it. */
  lemma {:induction false} ArgumentsReadWord(word: Word, rest: string, parsed: ParsedExec)
    requires IsWord(word) && |parsed.arguments| < MAXIMUM_ARGUMENTS && (rest == "" || rest[0] == ' ')
    requires word.Code? && TakesTargets(word.letter) ==> parsed.targetCode.None?
    ensures Arguments(WriteWord(word) + rest, parsed)
         == Arguments(rest, ParsedExec(parsed.arguments + [Argument(word)], Observed(word, parsed.targetCode)))
  {
    if word.Plain? {
      ArgumentsReadOne(word.w, rest, parsed);
    } else {
      CodeWordStarts(word);
      ReadCodeWord(word, rest, parsed.targetCode);
      hide Unquoted, Quoted, WriteWord, Argument, IsWord, DecodeFieldCode;
      var s := WriteWord(word) + rest;
      assert s[0] == WriteWord(word)[0];
      assert SkipSpaces(s) == s;
    }
  }

  function ObservedIn(words: seq<Word>, target: Option<FieldCode>): Option<FieldCode> {
    if TargetLetters(words) == [] then target else DecodeFieldCode(TargetLetters(words)[0])
  }

  function AfterFirst(words: seq<Word>): string
    requires words != []
  {
    if |words| == 1 then "" else " " + WriteLine(words[1..])
  }

  lemma {:induction false} LineSplits(words: seq<Word>)
    requires words != []
    ensures WriteLine(words) == WriteWord(words[0]) + AfterFirst(words)
  {
    hide WriteWord;
    assert WriteWord(words[0]) + "" == WriteWord(words[0]);
  }

  lemma {:induction false} ArgumentsReadNothing(parsed: ParsedExec)
    ensures Arguments("", parsed) == Done(parsed)
  {
  }

  /** What has been read after the first word. */
  function Begun(words: seq<Word>, parsed: ParsedExec): ParsedExec
    requires words != [] && IsWord(words[0])
  {
    ParsedExec(parsed.arguments + [Argument(words[0])], Observed(words[0], parsed.targetCode))
  }

  lemma {:induction false} ArgumentsReadFirst(words: seq<Word>, parsed: ParsedExec)
    requires words != [] && IsWord(words[0]) && |parsed.arguments| < MAXIMUM_ARGUMENTS
    requires words[0].Code? && TakesTargets(words[0].letter) ==> parsed.targetCode.None?
    ensures Arguments(WriteLine(words), parsed) == Arguments(WriteLine(words[1..]), Begun(words, parsed))
  {
    LineSplits(words);
    hide Arguments, IsWord, WriteWord, Argument, Observed, TakesTargets;
    ArgumentsReadWord(words[0], AfterFirst(words), parsed);
    if |words| > 1 {
      LeadingBlank(WriteLine(words[1..]), Begun(words, parsed));
    }
  }

  lemma {:induction false} BegunIsFinished(words: seq<Word>, parsed: ParsedExec)
    requires words != [] && forall i :: 0 <= i < |words| ==> IsWord(words[i])
    ensures Begun(words, parsed).arguments + ArgumentsOf(words[1..]) == parsed.arguments + ArgumentsOf(words)
  {
    hide IsWord, Argument, Observed;
  }

  lemma {:induction false} ArgumentsReadLine(words: seq<Word>, parsed: ParsedExec)
    requires forall i :: 0 <= i < |words| ==> IsWord(words[i])
    requires |parsed.arguments| + |words| <= MAXIMUM_ARGUMENTS
    requires |TargetLetters(words)| + |AsSeq(parsed.targetCode)| <= 1
    ensures Arguments(WriteLine(words), parsed)
         == Done(ParsedExec(parsed.arguments + ArgumentsOf(words), ObservedIn(words, parsed.targetCode)))
    decreases |words|
  {
    if words == [] {
      ArgumentsReadNothing(parsed);
      assert parsed.arguments + [] == parsed.arguments;
    } else {
      LetterObserved(words, parsed.targetCode);
      BegunIsFinished(words, parsed);
      var next := Begun(words, parsed);
      assert |next.arguments| == |parsed.arguments| + 1;
      assert next.targetCode == Observed(words[0], parsed.targetCode);
      hide *;
      ArgumentsReadFirst(words, parsed);
      ArgumentsReadLine(words[1..], next);
    }
  }

  lemma {:induction false} LetterObserved(words: seq<Word>, target: Option<FieldCode>)
    requires words != [] && IsWord(words[0])
    requires |TargetLetters(words)| + |AsSeq(target)| <= 1
    ensures |TargetLetters(words[1..])| + |AsSeq(Observed(words[0], target))| <= 1
    ensures words[0].Code? && TakesTargets(words[0].letter) ==> target.None?
    ensures ObservedIn(words[1..], Observed(words[0], target)) == ObservedIn(words, target)
  {
    if words[0].Code? {
      LetterDecodes(words[0].letter);
      hide DecodeFieldCode;
    }
  }

  lemma {:induction false} WordIsPrintable(word: Word)
    requires IsWord(word)
    ensures Printable(WriteWord(word))
  {
    match word {
      case Plain(w) => WriteIsPrintable(w);
      case Code(prefix, letter, suffix) =>
        QuoteBodyIsPrintable(prefix);
        QuoteBodyIsPrintable(suffix);
        LetterDecodes(letter);
        hide DecodeFieldCode, IsAffix;
    }
  }

  lemma {:induction false} LineIsPrintable(words: seq<Word>)
    requires forall i :: 0 <= i < |words| ==> IsWord(words[i])
    ensures Printable(WriteLine(words))
  {
    if words != [] {
      WordIsPrintable(words[0]);
      LineIsPrintable(words[1..]);
      hide WriteWord, IsWord;
    }
  }

  /** A line whose first word is a plain executable. */
  predicate IsLine(words: seq<Word>) {
    && 1 <= |words| <= MAXIMUM_ARGUMENTS && (forall i :: 0 <= i < |words| ==> IsWord(words[i]))
    && words[0].Plain? && words[0].w.text != "" && '=' !in words[0].w.text
    && |TargetLetters(words)| <= 1 && |WriteLine(words)| <= MAXIMUM_EXEC_BYTES
  }

  lemma {:induction false} WordStandsAlone(word: Word)
    requires IsWord(word)
    ensures Standalone(Argument(word))
    ensures IsStandaloneCode(Argument(word)) <==> word.Code? && StandsAlone(word.letter)
  {
    match word {
      case Plain(w) => ReadBackIsLiteral(w);
      case Code(prefix, letter, suffix) =>
        LetterDecodes(letter);
        hide DecodeFieldCode;
        var parts := Argument(word).parts;
        assert parts[|Literal(prefix)|].fieldCode == DecodeFieldCode(letter);
        assert forall i :: 0 <= i < |parts| && i != |Literal(prefix)| ==> parts[i].fieldCode.None?;
    }
  }

  lemma {:induction false} LineParses(words: seq<Word>)
    requires IsLine(words)
    ensures Parse(WriteLine(words)) == Done(ParsedExec(ArgumentsOf(words), ObservedIn(words, None)))
  {
    var parsed := ParsedExec(ArgumentsOf(words), ObservedIn(words, None));
    LineIsPrintable(words);
    ArgumentsReadLine(words, ParsedExec([], None));
    assert [] + ArgumentsOf(words) == ArgumentsOf(words);
    assert WriteLine(words) != "" by {
      WrittenStartsNonblank(words[0].w);
    }
    hide Arguments, WriteLine, TargetLetters;
    ReadBackIsLiteral(words[0].w);
    forall i | 0 <= i < |words| ensures Standalone(parsed.arguments[i]) {
      WordStandsAlone(words[i]);
    }
    assert parsed.arguments[0] == ReadBack(words[0].w);
    hide Standalone, HasFieldCode, ReadBack, LiteralText, IsWord;
    assert CheckParsed(parsed) == Done(parsed);
  }

  // ---------------------------------------------------------------- expanding a line

  lemma {:induction false} FittingPrefix(argv: seq<string>, more: seq<string>)
    requires Fits(argv + more)
    ensures Fits(argv)
    decreases |more|
  {
    if more == [] {
      assert argv + more == argv;
    } else {
      var front, last := more[..|more| - 1], more[|more| - 1];
      assert argv + more == argv + front + [last];
      TotalBytesAppend(argv + front, last);
      assert forall i :: 0 <= i < |argv + front| ==> (argv + more)[i] == (argv + front)[i];
      FittingPrefix(argv, front);
    }
  }

  lemma {:induction false} FittingIsAppended(argv: seq<string>, argument: string)
    requires Fits(argv + [argument])
    ensures Appended(argv, argument) == Done(argv + [argument])
  {
    TotalBytesAppend(argv, argument);
    assert (argv + [argument])[|argv|] == argument;
  }

  lemma {:induction false} FittingAreAppended(argv: seq<string>, more: seq<string>)
    requires Fits(argv + more)
    ensures AppendedAll(argv, more) == Done(argv + more)
    decreases |more|
  {
    if more == [] {
      assert argv + more == argv;
    } else {
      assert argv + more == argv + [more[0]] + more[1..];
      FittingPrefix(argv + [more[0]], more[1..]);
      FittingIsAppended(argv, more[0]);
      hide Fits, Appended, TotalBytes;
      FittingAreAppended(argv + [more[0]], more[1..]);
    }
  }

  /** What a letter that keeps to one argument puts there, and whether it keeps an argument that shows nothing else. */
  function TextOf(letter: char, entry: ExecEntry, context: ExpansionContext, index: nat): string
    requires context.targets != [] ==> index < |context.targets|
  {
    if letter == 'f' || letter == 'u' then if context.targets == [] then "" else context.targets[index]
    else if letter == 'c' then if entry.name.Some? then entry.name.value else ""
    else if letter == 'k' then if context.location.Some? then context.location.value else ""
    else ""
  }

  predicate Keeps(letter: char, context: ExpansionContext) {
    ((letter == 'f' || letter == 'u') && context.targets != []) || letter == 'c' || letter == 'k'
  }

  predicate Shown(b: Building) {
    b.preserveEmpty || !b.removedOnlyContent
  }

  lemma {:induction false} LetterIsReplaced(letter: char, entry: ExecEntry, context: ExpansionContext, index: nat,
      b: Building)
    requires IsLetter(letter) && !StandsAlone(letter)
    requires context.targets != [] ==> index < |context.targets|
    requires letter == 'c' ==> entry.name.Some? && entry.name.value != "" && !HasNul(entry.name.value)
    ensures DecodeFieldCode(letter).Some?
    ensures var r := Replacement(DecodeFieldCode(letter).value, entry, context, index, b);
      && r.Done? && r.value.0 == TextOf(letter, entry, context, index) && r.value.1.expanded == b.expanded
      && (Shown(r.value.1) <==> Shown(b) || Keeps(letter, context))
  {
    LetterDecodes(letter);
    hide HasNul;
  }

  lemma {:induction false} AffixBuilds(a: string, rest: seq<ExecPart>, entry: ExecEntry, context: ExpansionContext,
      index: nat, b: Building) returns (c: Building)
    requires context.targets != [] ==> index < |context.targets|
    requires |b.expanded| + |a| <= MAXIMUM_ARGUMENT_BYTES
    ensures BuildParts(Literal(a) + rest, entry, context, index, b) == BuildParts(rest, entry, context, index, c)
    ensures c.expanded == b.expanded + a && (Shown(c) <==> Shown(b) || a != "")
  {
    if a == "" {
      c := b;
      assert Literal(a) + rest == rest && b.expanded + a == b.expanded;
    } else {
      c := b.(expanded := b.expanded + a, removedOnlyContent := false);
      var parts := Literal(a) + rest;
      assert parts[0] == ExecPart(a, None) && parts[1..] == rest;
      assert BuildPart(parts[0], entry, context, index, b) == Done(c);
    }
  }

  lemma {:induction false} LetterBuilds(letter: char, rest: seq<ExecPart>, entry: ExecEntry,
      context: ExpansionContext, index: nat, b: Building) returns (c: Building)
    requires IsLetter(letter) && !StandsAlone(letter)
    requires context.targets != [] ==> index < |context.targets|
    requires letter == 'c' ==> entry.name.Some? && entry.name.value != "" && !HasNul(entry.name.value)
    requires |b.expanded| + |TextOf(letter, entry, context, index)| <= MAXIMUM_ARGUMENT_BYTES
    ensures BuildParts([ExecPart("", DecodeFieldCode(letter))] + rest, entry, context, index, b)
         == BuildParts(rest, entry, context, index, c)
    ensures c.expanded == b.expanded + TextOf(letter, entry, context, index)
    ensures Shown(c) <==> Shown(b) || Keeps(letter, context)
  {
    LetterIsReplaced(letter, entry, context, index, b);
    var parts := [ExecPart("", DecodeFieldCode(letter))] + rest;
    hide DecodeFieldCode, Replacement, Keeps, HasNul, TextOf;
    var replaced := Replacement(DecodeFieldCode(letter).value, entry, context, index, b).value.1;
    c := replaced.(expanded := b.expanded + TextOf(letter, entry, context, index));
    assert parts[0] == ExecPart("", DecodeFieldCode(letter)) && parts[1..] == rest;
    assert BuildPart(parts[0], entry, context, index, b) == Done(c);
  }

  /** A word with a letter that keeps to one argument. */
  lemma {:induction false} SingleWordExpands(word: Word, entry: ExecEntry, context: ExpansionContext, index: nat,
      argv: seq<string>)
    requires IsWord(word) && word.Code? && !StandsAlone(word.letter)
    requires context.targets != [] ==> index < |context.targets|
    requires word.letter == 'c' ==> entry.name.Some? && entry.name.value != "" && !HasNul(entry.name.value)
    requires var text := word.prefix + TextOf(word.letter, entry, context, index) + word.suffix;
      |text| <= MAXIMUM_ARGUMENT_BYTES
    ensures var text := word.prefix + TextOf(word.letter, entry, context, index) + word.suffix;
      Expand(Argument(word), entry, context, index, argv)
      == if text == "" && !Keeps(word.letter, context) then Done(argv) else Appended(argv, text)
  {
    WordStandsAlone(word);
    hide IsStandaloneCode, IsWord, DecodeFieldCode, Replacement, Keeps, HasNul, TextOf, Extends, BuildParts;
    var start := Building("", true, false);
    var coded := [ExecPart("", DecodeFieldCode(word.letter))] + Literal(word.suffix);
    assert Argument(word).parts == Literal(word.prefix) + coded;
    var b1 := AffixBuilds(word.prefix, coded, entry, context, index, start);
    var b2 := LetterBuilds(word.letter, Literal(word.suffix), entry, context, index, b1);
    assert Literal(word.suffix) + [] == Literal(word.suffix);
    var b3 := AffixBuilds(word.suffix, [], entry, context, index, b2);
    NothingBuilds(entry, context, index, b3);
    assert "" + word.prefix == word.prefix;
    NothingShows(word, context, entry, index);
  }

  lemma {:induction false} NothingBuilds(entry: ExecEntry, context: ExpansionContext, index: nat, b: Building)
    requires context.targets != [] ==> index < |context.targets|
    ensures BuildParts([], entry, context, index, b) == Done(b)
  {
  }

  lemma {:induction false} NothingShows(word: Word, context: ExpansionContext, entry: ExecEntry, index: nat)
    requires word.Code? && (context.targets != [] ==> index < |context.targets|)
    ensures !Keeps(word.letter, context) ==> TextOf(word.letter, entry, context, index) == ""
    ensures !Keeps(word.letter, context) ==>
      (word.prefix + TextOf(word.letter, entry, context, index) + word.suffix == ""
       <==> word.prefix == "" && word.suffix == "")
  {
  }

  lemma {:induction false} WordMeans(word: Word, entry: ExecEntry, context: ExpansionContext, index: nat)
    requires IsWord(word) && word.Code? && !StandsAlone(word.letter)
    requires context.targets != [] ==> index < |context.targets|
    ensures var text := word.prefix + TextOf(word.letter, entry, context, index) + word.suffix;
      Meaning(word, entry, context, index) == if text == "" && !Keeps(word.letter, context) then [] else [text]
  {
    hide IsAffix;
    NothingShows(word, context, entry, index);
    assert word.prefix + "" + word.suffix == word.prefix + word.suffix;
  }

  /** Expanding a word appends what it means, if that fits. */
  lemma {:induction false} ExpandWord(word: Word, entry: ExecEntry, context: ExpansionContext, index: nat,
      argv: seq<string>)
    requires IsWord(word) && (context.targets != [] ==> index < |context.targets|)
    requires Fits(argv + Meaning(word, entry, context, index)) && NameGiven([word], entry)
    ensures Expand(Argument(word), entry, context, index, argv)
         == Done(argv + Meaning(word, entry, context, index))
  {
    match word {
      case Plain(w) => PlainExpands(w, entry, context, index, argv);
      case Code(prefix, letter, suffix) =>
        if StandsAlone(letter) {
          ManyExpand(word, entry, context, index, argv);
        } else {
          CodeExpands(word, entry, context, index, argv);
        }
    }
  }

  lemma {:induction false} PlainExpands(w: Written, entry: ExecEntry, context: ExpansionContext, index: nat,
      argv: seq<string>)
    requires Writable(w) && (context.targets != [] ==> index < |context.targets|) && Fits(argv + [w.text])
    ensures Expand(ReadBack(w), entry, context, index, argv) == Done(argv + [w.text])
  {
    FittingIsAppended(argv, w.text);
    WritableText(w);
    ReadBackIsLiteral(w);
    assert (argv + [w.text])[|argv|] == w.text;
    hide IsStandaloneCode, Extends, TotalBytes;
    var b := AffixBuilds(w.text, [], entry, context, index, Building("", true, w.quoted));
    assert Literal(w.text) + [] == ReadBack(w).parts && "" + w.text == w.text;
    NothingBuilds(entry, context, index, b);
  }

  lemma {:induction false} ManyExpand(word: Word, entry: ExecEntry, context: ExpansionContext, index: nat,
      argv: seq<string>)
    requires IsWord(word) && word.Code? && StandsAlone(word.letter)
    requires context.targets != [] ==> index < |context.targets|
    requires Fits(argv + Meaning(word, entry, context, index))
    ensures Expand(Argument(word), entry, context, index, argv)
         == Done(argv + Meaning(word, entry, context, index))
  {
    WordStandsAlone(word);
    FittingAreAppended(argv, Meaning(word, entry, context, index));
    assert Argument(word).parts == [ExecPart("", DecodeFieldCode(word.letter))];
    if word.letter == 'i' && !MissingText(entry.icon) {
      var all := argv + ["--icon", entry.icon.value];
      assert all[|argv| + 1] == entry.icon.value;
    }
    assert argv + [] == argv;
    hide AppendedAll, Extends, TotalBytes, HasNul, IsStandaloneCode, IsWord;
  }

  lemma {:induction false} CodeExpands(word: Word, entry: ExecEntry, context: ExpansionContext, index: nat,
      argv: seq<string>)
    requires IsWord(word) && word.Code? && !StandsAlone(word.letter)
    requires context.targets != [] ==> index < |context.targets|
    requires Fits(argv + Meaning(word, entry, context, index)) && NameGiven([word], entry)
    ensures Expand(Argument(word), entry, context, index, argv)
         == Done(argv + Meaning(word, entry, context, index))
  {
    var text := word.prefix + TextOf(word.letter, entry, context, index) + word.suffix;
    WordMeans(word, entry, context, index);
    hide Meaning, TotalBytes, IsWord, Keeps, Expand;
    if text == "" && !Keeps(word.letter, context) {
      assert argv + [] == argv;
    } else {
      FittingIsAppended(argv, text);
      assert (argv + [text])[|argv|] == text;
    }
    if word.letter == 'c' {
      assert [word][0].letter == 'c';
      NulStays(word.prefix, entry.name.value, word.suffix);
    }
    SingleWordExpands(word, entry, context, index, argv);
  }

  lemma {:induction false} NulStays(a: string, b: string, c: string)
    ensures HasNul(b) ==> HasNul(a + b + c)
  {
  }

  lemma {:induction false} ExpandLine(words: seq<Word>, entry: ExecEntry, context: ExpansionContext, index: nat,
      argv: seq<string>)
    requires forall i :: 0 <= i < |words| ==> IsWord(words[i])
    requires context.targets != [] ==> index < |context.targets|
    requires Fits(argv + Meanings(words, entry, context, index)) && NameGiven(words, entry)
    ensures ExpandAll(ArgumentsOf(words), entry, context, index, argv)
         == Done(argv + Meanings(words, entry, context, index))
    decreases |words|
  {
    if words == [] {
      assert argv + [] == argv;
    } else {
      var first, rest := Meaning(words[0], entry, context, index), Meanings(words[1..], entry, context, index);
      assert argv + (first + rest) == argv + first + rest;
      NameGivenInParts(words, entry);
      assert ArgumentsOf(words)[0] == Argument(words[0]) && ArgumentsOf(words)[1..] == ArgumentsOf(words[1..]);
      hide Expand, Meaning, Argument, IsWord, Fits, NameGiven, ArgumentsOf;
      FittingPrefix(argv + first, rest);
      ExpandWord(words[0], entry, context, index, argv);
      ExpandLine(words[1..], entry, context, index, argv + first);
    }
  }

  lemma {:induction false} NameGivenInParts(words: seq<Word>, entry: ExecEntry)
    requires words != [] && NameGiven(words, entry)
    ensures NameGiven([words[0]], entry) && NameGiven(words[1..], entry)
  {
    if i :| 0 <= i < |words[1..]| && words[1..][i].Code? && words[1..][i].letter == 'c' {
      assert words[i + 1].letter == 'c';
    }
    if words[0].Code? && words[0].letter == 'c' {
      assert NameGiven(words, entry);
    }
  }

  lemma {:induction false} MeaningsStart(words: seq<Word>, entry: ExecEntry, context: ExpansionContext, index: nat)
    requires words != [] && words[0].Plain? && (context.targets != [] ==> index < |context.targets|)
    ensures Meanings(words, entry, context, index) != []
    ensures Meanings(words, entry, context, index)[0] == words[0].w.text
  {
    hide Meaning;
    assert Meaning(words[0], entry, context, index) == [words[0].w.text] by {
      MeaningOfPlain(words[0], entry, context, index);
    }
  }

  lemma {:induction false} MeaningOfPlain(word: Word, entry: ExecEntry, context: ExpansionContext, index: nat)
    requires word.Plain? && (context.targets != [] ==> index < |context.targets|)
    ensures Meaning(word, entry, context, index) == [word.w.text]
  {
  }

  lemma {:induction false} LineInvocations(words: seq<Word>, parsed: ParsedExec, entry: ExecEntry,
      context: ExpansionContext, index: nat, count: nat)
    requires IsLine(words) && parsed.arguments == ArgumentsOf(words) && NameGiven(words, entry)
    requires index <= count && (context.targets != [] ==> count <= |context.targets|)
    requires forall i :: index <= i < count ==> Fits(Meanings(words, entry, context, i))
    ensures Invocations(parsed, entry, context, index, count)
         == Done(AllMeanings(words, entry, context, index, count))
    decreases count - index
  {
    hide Fits, Meanings, NameGiven, ExpandAll, IsWord, WriteLine, TargetLetters;
    if index < count {
      var argv := Meanings(words, entry, context, index);
      assert [] + argv == argv;
      ExpandLine(words, entry, context, index, []);
      MeaningsStart(words, entry, context, index);
      LineInvocations(words, parsed, entry, context, index + 1, count);
      assert [argv] + AllMeanings(words, entry, context, index + 1, count)
             == AllMeanings(words, entry, context, index, count);
    }
  }

  lemma {:induction false} CountIsInvocationCount(words: seq<Word>, parsed: ParsedExec, context: ExpansionContext)
    requires |TargetLetters(words)| <= 1 && parsed.targetCode == ObservedIn(words, None)
    ensures InvocationCount(parsed, context) == Count(words, context.targets)
    ensures parsed.targetCode.None? <==> TargetLetters(words) == []
    ensures (parsed.targetCode == Some(SingleFile) || parsed.targetCode == Some(Files))
        <==> TargetLetters(words) == ['f'] || TargetLetters(words) == ['F']
  {
    LettersAreTargets(words);
    if TargetLetters(words) != [] {
      assert TargetLetters(words) == [TargetLetters(words)[0]];
    }
    hide TargetLetters;
  }

  lemma {:induction false} LettersAreTargets(words: seq<Word>)
    ensures forall i :: 0 <= i < |TargetLetters(words)| ==>
      TargetLetters(words)[i] == 'f' || TargetLetters(words)[i] == 'F' || TargetLetters(words)[i] == 'u'
      || TargetLetters(words)[i] == 'U'
  {
    if words != [] {
      LettersAreTargets(words[1..]);
    }
  }

  /**
   Expanding a line gives its meaning, said of the letters written: one invocation per target for f and u, and
   one invocation otherwise. Targets need a letter that takes them, and the file letters need local files.
   */
  lemma {:induction false} ExpansionIsTheMeaning(words: seq<Word>, entry: ExecEntry, context: ExpansionContext)
    requires IsLine(words) && entry.exec == Some(WriteLine(words)) && !entry.dbusActivatable
    requires ContextFault(context).None? && NameGiven(words, entry)
    requires forall i :: 0 <= i < Count(words, context.targets) ==> Fits(Meanings(words, entry, context, i))
    ensures ExpandExec(entry, context) ==
      if context.targets != [] && TargetLetters(words) == [] then Failed(TargetsWithoutCode)
      else if context.targets != [] && (TargetLetters(words) == ['f'] || TargetLetters(words) == ['F'])
              && context.kind != LocalFiles then Failed(NonLocalTargets)
      else Done(AllMeanings(words, entry, context, 0, Count(words, context.targets)))
  {
    var parsed := ParsedExec(ArgumentsOf(words), ObservedIn(words, None));
    LineParses(words);
    CountIsInvocationCount(words, parsed, context);
    var count := Count(words, context.targets);
    LineInvocations(words, parsed, entry, context, 0, count);
    assert count <= MAXIMUM_INVOCATIONS;
    hide Parse, Invocations, IsLine, TargetLetters, Fits, Meanings, NameGiven, InvocationCount, Count, AllMeanings,
      ContextFaultFrom, WriteLine;
  }

  // ---------------------------------------------------------------- lines of an executable and one letter

  /** An executable and a letter, as in `editor %f`. */
  function OneLetter(executable: Written, letter: char): seq<Word> {
    [Plain(executable), Code("", letter, "")]
  }

  lemma {:induction false} OneLetterIsLine(executable: Written, letter: char)
    requires Writable(executable) && executable.text != "" && '=' !in executable.text
    requires IsLetter(letter) && |Write(executable)| + 3 <= MAXIMUM_EXEC_BYTES
    ensures IsLine(OneLetter(executable, letter))
    ensures WriteLine(OneLetter(executable, letter)) == Write(executable) + " %" + [letter]
    ensures TargetLetters(OneLetter(executable, letter)) == if TakesTargets(letter) then [letter] else []
  {
    var words, code := OneLetter(executable, letter), Code("", letter, "");
    assert words[1..] == [code] && [code][1..] == [];
    hide Write, Writable;
    assert WriteWord(code) == "%" + [letter];
    assert WriteLine([code]) == WriteWord(code);
    assert WriteLine(words) == Write(executable) + " " + WriteLine([code]);
    var own := if TakesTargets(letter) then [letter] else [];
    assert TargetLetters([code]) == own + TargetLetters([]) == own;
    assert TargetLetters(words) == [] + TargetLetters([code]) == own;
  }

  lemma {:induction false} OneLetterMeans(executable: Written, letter: char, entry: ExecEntry,
      context: ExpansionContext, index: nat)
    requires context.targets != [] ==> index < |context.targets|
    ensures Meanings(OneLetter(executable, letter), entry, context, index)
         == [executable.text] + Meaning(Code("", letter, ""), entry, context, index)
  {
    var words := OneLetter(executable, letter);
    MeaningOfPlain(words[0], entry, context, index);
    hide Meaning;
    var code := Code("", letter, "");
    assert words[1..] == [code] && [code][1..] == [];
    assert Meanings([code], entry, context, index) == Meaning(code, entry, context, index) + [];
  }

  /** With f or u there is one invocation per target, each with its own target; with F or U one with all of them. */
  lemma {:induction false} TargetLettersRun(executable: Written, letter: char, entry: ExecEntry,
      context: ExpansionContext)
    requires Writable(executable) && executable.text != "" && '=' !in executable.text && TakesTargets(letter)
    requires |Write(executable)| + 3 <= MAXIMUM_EXEC_BYTES && !entry.dbusActivatable
    requires entry.exec == Some(Write(executable) + " %" + [letter])
    requires ContextFault(context).None? && context.targets != [] && Fits([executable.text] + context.targets)
    requires letter == 'f' || letter == 'F' ==> context.kind == LocalFiles
    ensures var r := ExpandExec(entry, context);
      r.Done? && if letter == 'f' || letter == 'u' then
        && |r.value| == |context.targets|
        && forall i :: 0 <= i < |r.value| ==> r.value[i] == [executable.text, context.targets[i]]
      else r.value == [[executable.text] + context.targets]
  {
    var words := OneLetter(executable, letter);
    OneLetterIsLine(executable, letter);
    assert NameGiven(words, entry) by {
      assert words[0].Plain? && words[1].letter == letter && letter != 'c';
    }
    var count := Count(words, context.targets);
    assert count == if letter == 'f' || letter == 'u' then |context.targets| else 1;
    forall i | 0 <= i < count
      ensures Fits(Meanings(words, entry, context, i))
      ensures Meanings(words, entry, context, i)
           == if letter == 'f' || letter == 'u' then [executable.text, context.targets[i]]
              else [executable.text] + context.targets {
      TargetLetterMeans(executable, letter, entry, context, i);
    }
    assert TargetLetters(words) == [letter];
    hide IsLine, Write, Writable, TargetLetters, ContextFault, Count, Meanings, Fits, NameGiven, OneLetter, IsLetter;
    ExpansionIsTheMeaning(words, entry, context);
  }

  lemma {:induction false} TargetLetterMeans(executable: Written, letter: char, entry: ExecEntry,
      context: ExpansionContext, i: nat)
    requires TakesTargets(letter) && i < |context.targets| && Fits([executable.text] + context.targets)
    ensures var meant := Meanings(OneLetter(executable, letter), entry, context, i);
      && Fits(meant)
      && meant == if letter == 'f' || letter == 'u' then [executable.text, context.targets[i]]
                  else [executable.text] + context.targets
  {
    OneLetterMeans(executable, letter, entry, context, i);
    assert "" + context.targets[i] + "" == context.targets[i];
    OneTargetFits(executable.text, context.targets, i);
    hide Meanings, Fits;
  }

  lemma {:induction false} OneTargetFits(text: string, targets: seq<string>, i: nat)
    requires Fits([text] + targets) && i < |targets|
    ensures Fits([text, targets[i]])
  {
    var all := [text] + targets;
    assert all[0] == text && all[i + 1] == targets[i] && all[1..] == targets;
    assert TotalBytes(all) == |text| + TotalBytes(targets);
    OneOfTotal(targets, i);
    var both := [text, targets[i]];
    assert both[1..] == [targets[i]] && [targets[i]][1..] == [];
    assert TotalBytes([targets[i]]) == |targets[i]| && TotalBytes(both) == |text| + TotalBytes([targets[i]]);
    hide HasNul;
  }

  lemma {:induction false} OneOfTotal(argv: seq<string>, i: nat)
    requires i < |argv|
    ensures |argv[i]| <= TotalBytes(argv)
  {
    if i > 0 {
      OneOfTotal(argv[1..], i - 1);
    }
  }

  /** Without targets there is one invocation. */
  lemma {:induction false} LetterRunsOnce(executable: Written, letter: char, entry: ExecEntry,
      context: ExpansionContext)
    requires Writable(executable) && executable.text != "" && '=' !in executable.text && IsLetter(letter)
    requires |Write(executable)| + 3 <= MAXIMUM_EXEC_BYTES && !entry.dbusActivatable
    requires entry.exec == Some(Write(executable) + " %" + [letter])
    requires ContextFault(context).None? && context.targets == []
    requires letter == 'c' ==> entry.name.Some? && entry.name.value != ""
    requires Fits([executable.text] + Meaning(Code("", letter, ""), entry, context, 0))
    ensures ExpandExec(entry, context)
         == Done([[executable.text] + Meaning(Code("", letter, ""), entry, context, 0)])
  {
    var words := OneLetter(executable, letter);
    OneLetterIsLine(executable, letter);
    OneLetterMeans(executable, letter, entry, context, 0);
    assert NameGiven(words, entry) by {
      assert words[0].Plain? && words[1].letter == letter;
    }
    assert AllMeanings(words, entry, context, 0, 1) == [Meanings(words, entry, context, 0)];
    assert Count(words, context.targets) == 1;
    hide IsLine, Write, Writable, ContextFault, Fits, Meanings, Meaning, NameGiven, TargetLetters, AllMeanings, Count;
    ExpansionIsTheMeaning(words, entry, context);
  }

  lemma {:induction false} LetterShowsAlone(letter: char, entry: ExecEntry, context: ExpansionContext)
    requires IsLetter(letter) && !TakesTargets(letter) && context.targets == []
    requires entry.name.Some? && entry.icon.Some? && entry.icon.value != "" && context.location.Some?
    ensures Meaning(Code("", letter, ""), entry, context, 0) ==
      if letter == 'i' then ["--icon", entry.icon.value]
      else if letter == 'c' then [entry.name.value]
      else if letter == 'k' then [context.location.value]
      else []
  {
    assert "" + entry.name.value + "" == entry.name.value;
    assert "" + context.location.value + "" == context.location.value;
  }

  /** The other letters give the icon behind its option, the name, the location, and nothing. */
  lemma {:induction false} OtherLettersShow(executable: Written, letter: char, entry: ExecEntry,
      context: ExpansionContext)
    requires Writable(executable) && executable.text != "" && '=' !in executable.text
    requires IsLetter(letter) && !TakesTargets(letter)
    requires |Write(executable)| + 3 <= MAXIMUM_EXEC_BYTES && !entry.dbusActivatable
    requires entry.exec == Some(Write(executable) + " %" + [letter])
    requires ContextFault(context).None? && context.targets == []
    requires entry.name.Some? && entry.name.value != "" && entry.icon.Some? && entry.icon.value != ""
    requires context.location.Some?
    requires Fits([executable.text, "--icon", entry.icon.value]) && Fits([executable.text, entry.name.value])
    requires Fits([executable.text, context.location.value]) && Fits([executable.text])
    ensures ExpandExec(entry, context) == Done([
      if letter == 'i' then [executable.text, "--icon", entry.icon.value]
      else if letter == 'c' then [executable.text, entry.name.value]
      else if letter == 'k' then [executable.text, context.location.value]
      else [executable.text]])
  {
    LetterShowsAlone(letter, entry, context);
    assert [executable.text] + [] == [executable.text];
    assert [executable.text] + ["--icon", entry.icon.value] == [executable.text, "--icon", entry.icon.value];
    assert [executable.text] + [entry.name.value] == [executable.text, entry.name.value];
    assert [executable.text] + [context.location.value] == [executable.text, context.location.value];
    hide *;
    LetterRunsOnce(executable, letter, entry, context);
  }
}
