/**
 The Exec key of desktop entries: tokenizing an Exec value and expanding its field codes.

 Tokenizing is proved to undo the quoting of section 7 of the Desktop Entry Specification 1.5.
 Expansion is proved to fill a template that depends on the number of targets but never on their text,
 and whose target slots name every target once and in order.
 */
module DesktopExec {
  import opened Foundation

  const MAXIMUM_EXEC_BYTES: nat := 65536
  const MAXIMUM_ARGUMENTS: nat := 256
  const MAXIMUM_ARGUMENT_BYTES: nat := 65536
  const MAXIMUM_VECTOR_BYTES: nat := 1048576
  const MAXIMUM_TARGETS: nat := 256
  const MAXIMUM_TARGET_BYTES: nat := 65536
  const MAXIMUM_TARGET_VECTOR_BYTES: nat := 1048576
  const MAXIMUM_INVOCATIONS: nat := 256
  const MAXIMUM_LOCATION_BYTES: nat := 65536

  datatype FieldCode = SingleFile | Files | SingleUrl | Urls | Icon | Name | DesktopFile | Deprecated

  datatype ExecPart = ExecPart(literal: string, fieldCode: Option<FieldCode>)

  datatype ExecArgument = ExecArgument(parts: seq<ExecPart>, preserveExplicitEmpty: bool)

  datatype ParsedExec = ParsedExec(arguments: seq<ExecArgument>, targetCode: Option<FieldCode>)

  /** The distinct failures of the component; the source tells them apart by message. */
  datatype Fault =
    | EmptyValue | ValueTooLarge | NotPrintable | TooManyArguments
    | IncompleteEscape | InvalidEscape | UnescapedReserved | FieldCodeInQuotes | InvalidPercent
    | UnmatchedQuote | PartialQuoting | UnquotedReserved | UnsupportedFieldCode | SeveralTargetCodes
    | NoExecutable | ExecutableHasFieldCode | ExecutableInvalid | CodeNotStandalone
    | TooManyTargets | TargetsWithoutKind | InvalidTarget | TargetsTooLarge | InvalidLocation | LocationTooLarge
    | VectorFull | ArgumentHasNul | ArgumentTooLarge | VectorTooLarge
    | InvalidIcon | InvalidName | CodeNotStandaloneInExpansion
    | DbusActivated | NoExecValue | TargetsWithoutCode | NonLocalTargets | TooManyInvocations
    | NoExecutableArgument

  datatype Outcome<+T> = Done(value: T) | Failed(fault: Fault)

  datatype TargetKind = NoTargets | LocalFiles | Uris

  datatype ExpansionContext = ExpansionContext(kind: TargetKind, targets: seq<string>, location: Option<string>)

  /** The desktop-entry fields that Exec expansion reads. */
  datatype ExecEntry = ExecEntry(
    exec: Option<string>, name: Option<string>, icon: Option<string>, dbusActivatable: bool)

  // ---------------------------------------------------------------- characters and codes

  predicate IsAsciiLetter(c: char) {
    'A' <= c <= 'Z' || 'a' <= c <= 'z'
  }

  predicate IsPrintable(c: char) {
    ' ' <= c <= '~'
  }

  /** The characters that a backslash may precede inside quotes. */
  predicate EscapedInQuotes(c: char) {
    c == '"' || c == '`' || c == '$' || c == '\\'
  }

  predicate IsReservedUnquoted(c: char) {
    c in "\"'\\><~|&;$*?#()`"
  }

  predicate IsTargetCode(code: FieldCode) {
    code == SingleFile || code == Files || code == SingleUrl || code == Urls
  }

  predicate IsMultiArgumentCode(code: FieldCode) {
    code == Files || code == Urls || code == Icon
  }

  predicate IsMulti(code: Option<FieldCode>) {
    code.Some? && IsMultiArgumentCode(code.value)
  }

  function DecodeFieldCode(c: char): Option<FieldCode> {
    match c
    case 'f' => Some(SingleFile)
    case 'F' => Some(Files)
    case 'u' => Some(SingleUrl)
    case 'U' => Some(Urls)
    case 'i' => Some(Icon)
    case 'c' => Some(Name)
    case 'k' => Some(DesktopFile)
    case _ => if c in "dDnNvm" then Some(Deprecated) else None
  }

  function AppendLiteral(argument: ExecArgument, c: char): ExecArgument {
    var parts := argument.parts;
    if parts == [] || parts[|parts| - 1].fieldCode.Some? then
      argument.(parts := parts + [ExecPart([c], None)])
    else
      var last := parts[|parts| - 1];
      argument.(parts := parts[..|parts| - 1] + [last.(literal := last.literal + [c])])
  }

  function AppendFieldCode(argument: ExecArgument, code: FieldCode): ExecArgument {
    argument.(parts := argument.parts + [ExecPart("", Some(code))])
  }

  // ---------------------------------------------------------------- tokenizing, as a function

  /** The quoted argument that starts after an opening quote, and what follows its closing quote. */
  function Quoted(s: string, argument: ExecArgument): (r: Outcome<(ExecArgument, string)>)
    ensures r.Done? ==> |r.value.1| < |s|
  {
    if s == "" then Failed(UnmatchedQuote)
    else if s[0] == '"' then Done((argument, s[1..]))
    else if s[0] == '\\' then
      if |s| == 1 then Failed(IncompleteEscape)
      else if !EscapedInQuotes(s[1]) then Failed(InvalidEscape)
      else Quoted(s[2..], AppendLiteral(argument, s[1]))
    else if s[0] == '`' || s[0] == '$' then Failed(UnescapedReserved)
    else if s[0] != '%' then Quoted(s[1..], AppendLiteral(argument, s[0]))
    else if |s| > 1 && s[1] == '%' then Quoted(s[2..], AppendLiteral(argument, '%'))
    else if |s| > 1 && IsAsciiLetter(s[1]) then Failed(FieldCodeInQuotes)
    else Failed(InvalidPercent)
  }

  /** The unquoted argument at the start of s, what follows it, and the target code seen so far. */
  function Unquoted(s: string, argument: ExecArgument, target: Option<FieldCode>)
      : (r: Outcome<(ExecArgument, string, Option<FieldCode>)>)
    ensures r.Done? ==> |r.value.1| <= |s|
    ensures r.Done? && s != "" && s[0] != ' ' ==> |r.value.1| < |s|
    ensures r.Done? ==> r.value.1 == "" || r.value.1[0] == ' '
    decreases |s|
  {
    if s == "" || s[0] == ' ' then Done((argument, s, target))
    else if s[0] == '"' then Failed(PartialQuoting)
    else if IsReservedUnquoted(s[0]) then Failed(UnquotedReserved)
    else if s[0] != '%' then Unquoted(s[1..], AppendLiteral(argument, s[0]), target)
    else if |s| > 1 && s[1] == '%' then Unquoted(s[2..], AppendLiteral(argument, '%'), target)
    else if |s| == 1 || !IsAsciiLetter(s[1]) then Failed(InvalidPercent)
    else
      match DecodeFieldCode(s[1])
      case None => Failed(UnsupportedFieldCode)
      case Some(code) =>
        if IsTargetCode(code) && target.Some? then Failed(SeveralTargetCodes)
        else
          var observed := if IsTargetCode(code) then Some(code) else target;
          Unquoted(s[2..], AppendFieldCode(argument, code), observed)
  }

  function SkipSpaces(s: string): (r: string)
    ensures |r| <= |s|
    ensures r == "" || r[0] != ' '
  {
    if s != "" && s[0] == ' ' then SkipSpaces(s[1..]) else s
  }

  function Arguments(s: string, parsed: ParsedExec): Outcome<ParsedExec>
    decreases |s|
  {
    var rest := SkipSpaces(s);
    if rest == "" then Done(parsed)
    else if |parsed.arguments| >= MAXIMUM_ARGUMENTS then Failed(TooManyArguments)
    else if rest[0] == '"' then
      match Quoted(rest[1..], ExecArgument([], true))
      case Failed(f) => Failed(f)
      case Done((argument, tail)) =>
        if tail != "" && tail[0] != ' ' then Failed(PartialQuoting)
        else Arguments(tail, parsed.(arguments := parsed.arguments + [argument]))
    else
      match Unquoted(rest, ExecArgument([], false), parsed.targetCode)
      case Failed(f) => Failed(f)
      case Done((argument, tail, target)) =>
        Arguments(tail, ParsedExec(parsed.arguments + [argument], target))
  }

  function LiteralText(parts: seq<ExecPart>): string {
    if parts == [] then "" else parts[0].literal + LiteralText(parts[1..])
  }

  predicate HasFieldCode(argument: ExecArgument) {
    exists i :: 0 <= i < |argument.parts| && argument.parts[i].fieldCode.Some?
  }

  /** A multi-argument code is the whole argument. */
  predicate Standalone(argument: ExecArgument) {
    forall i :: 0 <= i < |argument.parts| && IsMulti(argument.parts[i].fieldCode) ==> |argument.parts| == 1
  }

  predicate AllStandalone(arguments: seq<ExecArgument>) {
    forall i :: 0 <= i < |arguments| ==> Standalone(arguments[i])
  }

  /** The checks made once the whole value is tokenized. */
  function CheckParsed(parsed: ParsedExec): Outcome<ParsedExec> {
    if parsed.arguments == [] then Failed(NoExecutable)
    else if HasFieldCode(parsed.arguments[0]) then Failed(ExecutableHasFieldCode)
    else
      var text := LiteralText(parsed.arguments[0].parts);
      if text == "" || '=' in text then Failed(ExecutableInvalid)
      else if !AllStandalone(parsed.arguments) then Failed(CodeNotStandalone)
      else Done(parsed)
  }

  function Parse(command: string): Outcome<ParsedExec> {
    if command == "" then Failed(EmptyValue)
    else if |command| > MAXIMUM_EXEC_BYTES then Failed(ValueTooLarge)
    else if exists i :: 0 <= i < |command| && !IsPrintable(command[i]) then Failed(NotPrintable)
    else
      match Arguments(command, ParsedExec([], None))
      case Failed(f) => Failed(f)
      case Done(parsed) => CheckParsed(parsed)
  }

  // ---------------------------------------------------------------- tokenizing, as the source loops

  method ParseQuoted(command: string, start: nat) returns (r: Outcome<(ExecArgument, nat)>)
    requires start <= |command|
    ensures match Quoted(command[start..], ExecArgument([], true))
            case Failed(f) => r == Failed(f)
            case Done((argument, tail)) =>
              r.Done? && r.value.0 == argument && r.value.1 <= |command| && command[r.value.1..] == tail
  {
    hide AppendLiteral;
    var offset := start;
    var argument := ExecArgument([], true);
    while offset < |command|
      invariant start <= offset <= |command|
      invariant Quoted(command[start..], ExecArgument([], true)) == Quoted(command[offset..], argument)
    {
      ghost var s := command[offset..];
      assert s[1..] == command[offset + 1..];
      var character := command[offset];
      offset := offset + 1;
      if character == '"' {
        return Done((argument, offset));
      }
      if character == '\\' {
        if offset == |command| {
          return Failed(IncompleteEscape);
        }
        var escaped := command[offset];
        assert s[1] == escaped && s[2..] == command[offset + 1..];
        offset := offset + 1;
        if escaped != '"' && escaped != '`' && escaped != '$' && escaped != '\\' {
          return Failed(InvalidEscape);
        }
        argument := AppendLiteral(argument, escaped);
        continue;
      }
      if character == '`' || character == '$' {
        return Failed(UnescapedReserved);
      }
      if character != '%' {
        argument := AppendLiteral(argument, character);
        continue;
      }
      if offset < |command| && command[offset] == '%' {
        assert s[2..] == command[offset + 1..];
        offset := offset + 1;
        argument := AppendLiteral(argument, '%');
        continue;
      }
      if offset < |command| && IsAsciiLetter(command[offset]) {
        return Failed(FieldCodeInQuotes);
      }
      return Failed(InvalidPercent);
    }
    return Failed(UnmatchedQuote);
  }

  method ParseUnquoted(command: string, start: nat, target: Option<FieldCode>)
      returns (r: Outcome<(ExecArgument, nat, Option<FieldCode>)>)
    requires start <= |command|
    ensures match Unquoted(command[start..], ExecArgument([], false), target)
            case Failed(f) => r == Failed(f)
            case Done((argument, tail, observed)) =>
              r.Done? && r.value.0 == argument && r.value.1 <= |command| && command[r.value.1..] == tail
              && r.value.2 == observed
  {
    hide AppendLiteral, AppendFieldCode, DecodeFieldCode, IsReservedUnquoted;
    var offset := start;
    var argument := ExecArgument([], false);
    var observed := target;
    while offset < |command| && command[offset] != ' '
      invariant start <= offset <= |command|
      invariant Unquoted(command[start..], ExecArgument([], false), target)
             == Unquoted(command[offset..], argument, observed)
    {
      ghost var s := command[offset..];
      assert s[1..] == command[offset + 1..];
      var character := command[offset];
      offset := offset + 1;
      if character == '"' {
        return Failed(PartialQuoting);
      }
      if IsReservedUnquoted(character) {
        return Failed(UnquotedReserved);
      }
      if character != '%' {
        argument := AppendLiteral(argument, character);
        continue;
      }
      if offset < |command| && command[offset] == '%' {
        assert s[2..] == command[offset + 1..];
        offset := offset + 1;
        argument := AppendLiteral(argument, '%');
        continue;
      }
      if offset == |command| || !IsAsciiLetter(command[offset]) {
        return Failed(InvalidPercent);
      }
      assert s[2..] == command[offset + 1..];
      var code := DecodeFieldCode(command[offset]);
      offset := offset + 1;
      if code.None? {
        return Failed(UnsupportedFieldCode);
      }
      if IsTargetCode(code.value) {
        if observed.Some? {
          return Failed(SeveralTargetCodes);
        }
        observed := Some(code.value);
      }
      argument := AppendFieldCode(argument, code.value);
    }
    return Done((argument, offset, observed));
  }

  method ParseExec(command: string) returns (r: Outcome<ParsedExec>)
    ensures r == Parse(command)
  {
    if command == "" {
      return Failed(EmptyValue);
    }
    if |command| > MAXIMUM_EXEC_BYTES {
      return Failed(ValueTooLarge);
    }
    if exists i :: 0 <= i < |command| && !IsPrintable(command[i]) {
      return Failed(NotPrintable);
    }
    hide Quoted, Unquoted, SkipSpaces, CheckParsed;
    var parsed := ParsedExec([], None);
    var offset := 0;
    assert command[0..] == command;
    while offset < |command|
      invariant offset <= |command|
      invariant Arguments(command, ParsedExec([], None)) == Arguments(command[offset..], parsed)
      decreases |command| - offset
    {
      offset := SkipSpacesFrom(command, offset, parsed);
      if offset == |command| {
        break;
      }
      if |parsed.arguments| >= MAXIMUM_ARGUMENTS {
        return Failed(TooManyArguments);
      }
      ghost var s := command[offset..];
      if command[offset] == '"' {
        assert s[1..] == command[offset + 1..];
        var quoted := ParseQuoted(command, offset + 1);
        if quoted.Failed? {
          return Failed(quoted.fault);
        }
        offset := quoted.value.1;
        if offset < |command| && command[offset] != ' ' {
          return Failed(PartialQuoting);
        }
        parsed := parsed.(arguments := parsed.arguments + [quoted.value.0]);
      } else {
        var unquoted := ParseUnquoted(command, offset, parsed.targetCode);
        if unquoted.Failed? {
          return Failed(unquoted.fault);
        }
        offset := unquoted.value.1;
        parsed := ParsedExec(parsed.arguments + [unquoted.value.0], unquoted.value.2);
      }
    }
    assert command[offset..] == "";
    return CheckParsed(parsed);
  }

  method SkipSpacesFrom(command: string, start: nat, ghost parsed: ParsedExec) returns (offset: nat)
    requires start <= |command|
    ensures start <= offset <= |command|
    ensures command[offset..] == SkipSpaces(command[start..])
    ensures Arguments(command[offset..], parsed) == Arguments(command[start..], parsed)
  {
    offset := start;
    while offset < |command| && command[offset] == ' '
      invariant start <= offset <= |command|
      invariant SkipSpaces(command[offset..]) == SkipSpaces(command[start..])
    {
      assert command[offset..][1..] == command[offset + 1..];
      offset := offset + 1;
    }
    assert SkipSpaces(command[offset..]) == command[offset..];
  }

  // ---------------------------------------------------------------- what tokenizing guarantees

  function TargetCodesOfParts(parts: seq<ExecPart>): seq<FieldCode> {
    if parts == [] then []
    else
      (match parts[0].fieldCode
       case Some(code) => if IsTargetCode(code) then [code] else []
       case None => [])
      + TargetCodesOfParts(parts[1..])
  }

  /** The file and URL codes of an argument row, in the order they are written. */
  function TargetCodes(arguments: seq<ExecArgument>): seq<FieldCode> {
    if arguments == [] then []
    else TargetCodesOfParts(arguments[0].parts) + TargetCodes(arguments[1..])
  }

  function AsSeq(code: Option<FieldCode>): seq<FieldCode> {
    match code case Some(c) => [c] case None => []
  }

  /** A literal part is never empty and a code part holds no literal. */
  predicate PartShape(part: ExecPart) {
    if part.fieldCode.Some? then part.literal == "" else part.literal != ""
  }

  predicate PartsShape(parts: seq<ExecPart>) {
    forall i :: 0 <= i < |parts| ==> PartShape(parts[i])
  }

  predicate ArgumentsShape(arguments: seq<ExecArgument>) {
    forall i :: 0 <= i < |arguments| ==> PartsShape(arguments[i].parts)
  }

  /** What every successfully parsed Exec value satisfies. */
  predicate WellParsed(parsed: ParsedExec) {
    && parsed.arguments != []
    && !HasFieldCode(parsed.arguments[0])
    && LiteralText(parsed.arguments[0].parts) != ""
    && AllStandalone(parsed.arguments)
    && ArgumentsShape(parsed.arguments)
    && TargetCodes(parsed.arguments) == AsSeq(parsed.targetCode)
  }

  lemma {:induction false} TargetCodesOfPartsAppend(a: seq<ExecPart>, b: seq<ExecPart>)
    ensures TargetCodesOfParts(a + b) == TargetCodesOfParts(a) + TargetCodesOfParts(b)
  {
    if a == [] {
      assert a + b == b;
    } else {
      assert (a + b)[1..] == a[1..] + b;
      TargetCodesOfPartsAppend(a[1..], b);
    }
  }

  lemma {:induction false} TargetCodesAppend(a: seq<ExecArgument>, b: seq<ExecArgument>)
    ensures TargetCodes(a + b) == TargetCodes(a) + TargetCodes(b)
  {
    if a == [] {
      assert a + b == b;
    } else {
      assert (a + b)[1..] == a[1..] + b;
      TargetCodesAppend(a[1..], b);
    }
  }

  lemma {:induction false} OnePartCodes(part: ExecPart)
    ensures TargetCodesOfParts([part])
         == if part.fieldCode.Some? && IsTargetCode(part.fieldCode.value) then [part.fieldCode.value] else []
  {
    assert [part][1..] == [];
  }

  lemma {:induction false} LiteralKeepsCodes(argument: ExecArgument, c: char)
    requires PartsShape(argument.parts)
    ensures PartsShape(AppendLiteral(argument, c).parts)
    ensures TargetCodesOfParts(AppendLiteral(argument, c).parts) == TargetCodesOfParts(argument.parts)
  {
    var parts := argument.parts;
    var r := AppendLiteral(argument, c).parts;
    if parts == [] || parts[|parts| - 1].fieldCode.Some? {
      OnePartCodes(ExecPart([c], None));
      TargetCodesOfPartsAppend(parts, [ExecPart([c], None)]);
    } else {
      var front, last := parts[..|parts| - 1], parts[|parts| - 1];
      assert parts == front + [last];
      var longer := last.(literal := last.literal + [c]);
      TargetCodesOfPartsAppend(front, [last]);
      TargetCodesOfPartsAppend(front, [longer]);
      OnePartCodes(last);
      OnePartCodes(longer);
      assert r == front + [longer];
    }
  }

  lemma {:induction false} QuotedKeepsCodes(s: string, argument: ExecArgument)
    requires PartsShape(argument.parts)
    ensures var r := Quoted(s, argument);
      r.Done? ==>
        PartsShape(r.value.0.parts) && TargetCodesOfParts(r.value.0.parts) == TargetCodesOfParts(argument.parts)
    decreases |s|
  {
    hide AppendLiteral;
    if s != "" && s[0] != '"' && Quoted(s, argument).Done? {
      if s[0] == '\\' {
        LiteralKeepsCodes(argument, s[1]);
        QuotedKeepsCodes(s[2..], AppendLiteral(argument, s[1]));
      } else if s[0] != '%' {
        LiteralKeepsCodes(argument, s[0]);
        QuotedKeepsCodes(s[1..], AppendLiteral(argument, s[0]));
      } else {
        LiteralKeepsCodes(argument, '%');
        QuotedKeepsCodes(s[2..], AppendLiteral(argument, '%'));
      }
    }
  }

  lemma {:induction false} CodeIsObserved(argument: ExecArgument, code: FieldCode, target: Option<FieldCode>,
      before: seq<FieldCode>)
    requires PartsShape(argument.parts)
    requires before + TargetCodesOfParts(argument.parts) == AsSeq(target)
    requires !(IsTargetCode(code) && target.Some?)
    ensures PartsShape(AppendFieldCode(argument, code).parts)
    ensures before + TargetCodesOfParts(AppendFieldCode(argument, code).parts)
         == AsSeq(if IsTargetCode(code) then Some(code) else target)
  {
    TargetCodesOfPartsAppend(argument.parts, [ExecPart("", Some(code))]);
    OnePartCodes(ExecPart("", Some(code)));
  }

  /** `before` are the target codes of earlier arguments. */
  lemma {:induction false} UnquotedObservesCodes(s: string, argument: ExecArgument, target: Option<FieldCode>,
      before: seq<FieldCode>)
    requires PartsShape(argument.parts)
    requires before + TargetCodesOfParts(argument.parts) == AsSeq(target)
    ensures var r := Unquoted(s, argument, target);
      r.Done? ==>
        PartsShape(r.value.0.parts) && before + TargetCodesOfParts(r.value.0.parts) == AsSeq(r.value.2)
    decreases |s|
  {
    hide AppendLiteral, IsReservedUnquoted, DecodeFieldCode, PartsShape;
    if s != "" && s[0] != ' ' && Unquoted(s, argument, target).Done? {
      if s[0] != '%' {
        LiteralKeepsCodes(argument, s[0]);
        UnquotedObservesCodes(s[1..], AppendLiteral(argument, s[0]), target, before);
      } else if s[1] == '%' {
        LiteralKeepsCodes(argument, '%');
        UnquotedObservesCodes(s[2..], AppendLiteral(argument, '%'), target, before);
      } else {
        var code := DecodeFieldCode(s[1]).value;
        var observed := if IsTargetCode(code) then Some(code) else target;
        CodeIsObserved(argument, code, target, before);
        UnquotedObservesCodes(s[2..], AppendFieldCode(argument, code), observed, before);
      }
    }
  }

  lemma {:induction false} ArgumentsObserveCodes(s: string, parsed: ParsedExec)
    requires ArgumentsShape(parsed.arguments)
    requires TargetCodes(parsed.arguments) == AsSeq(parsed.targetCode)
    ensures var r := Arguments(s, parsed);
      r.Done? ==> ArgumentsShape(r.value.arguments) && TargetCodes(r.value.arguments) == AsSeq(r.value.targetCode)
    decreases |s|
  {
    hide Quoted, Unquoted, SkipSpaces;
    var rest := SkipSpaces(s);
    if rest != "" && Arguments(s, parsed).Done? {
      if rest[0] == '"' {
        var q := Quoted(rest[1..], ExecArgument([], true));
        QuotedKeepsCodes(rest[1..], ExecArgument([], true));
        AddArgument(parsed, q.value.0, parsed.targetCode);
        ArgumentsObserveCodes(q.value.1, parsed.(arguments := parsed.arguments + [q.value.0]));
      } else {
        var u := Unquoted(rest, ExecArgument([], false), parsed.targetCode);
        UnquotedObservesCodes(rest, ExecArgument([], false), parsed.targetCode, TargetCodes(parsed.arguments));
        AddArgument(parsed, u.value.0, u.value.2);
        ArgumentsObserveCodes(u.value.1, ParsedExec(parsed.arguments + [u.value.0], u.value.2));
      }
    }
  }

  lemma {:induction false} AddArgument(parsed: ParsedExec, argument: ExecArgument, target: Option<FieldCode>)
    requires ArgumentsShape(parsed.arguments) && PartsShape(argument.parts)
    requires TargetCodes(parsed.arguments) + TargetCodesOfParts(argument.parts) == AsSeq(target)
    ensures ArgumentsShape(parsed.arguments + [argument])
    ensures TargetCodes(parsed.arguments + [argument]) == AsSeq(target)
  {
    hide PartsShape, TargetCodesOfParts;
    TargetCodesAppend(parsed.arguments, [argument]);
    assert [argument][1..] == [];
  }

  /** Parsing establishes the facts that expansion relies on. */
  lemma {:induction false} ParsedIsWellParsed(command: string)
    ensures Parse(command).Done? ==> WellParsed(Parse(command).value)
  {
    if Parse(command).Done? {
      ArgumentsObserveCodes(command, ParsedExec([], None));
    }
  }

  // ---------------------------------------------------------------- quoting and its inverse

  function QuoteChar(c: char): string {
    if EscapedInQuotes(c) then ['\\', c]
    else if c == '%' then "%%"
    else [c]
  }

  function QuoteBody(a: string): string {
    if a == "" then "" else QuoteChar(a[0]) + QuoteBody(a[1..])
  }

  /** An argument that needs no quotes. */
  predicate Bare(a: string) {
    a != "" && forall i :: 0 <= i < |a| ==> a[i] != ' ' && !IsReservedUnquoted(a[i])
  }

  predicate Printable(a: string) {
    forall i :: 0 <= i < |a| ==> IsPrintable(a[i])
  }

  datatype Written = Written(text: string, quoted: bool)

  /** A way to write an argument: in quotes, or bare where that is allowed. */
  predicate Writable(w: Written) {
    Printable(w.text) && (w.quoted || Bare(w.text))
  }

  function Write(w: Written): string {
    if w.quoted then "\"" + QuoteBody(w.text) + "\"" else QuoteBody(w.text)
  }

  /** Section 7 of the Desktop Entry Specification 1.5: written arguments separated by a blank. */
  function WriteAll(ws: seq<Written>): string {
    if ws == [] then ""
    else if |ws| == 1 then Write(ws[0])
    else Write(ws[0]) + " " + WriteAll(ws[1..])
  }

  /** The argument that a written argument is read back as. */
  function ReadBack(w: Written): ExecArgument {
    ExecArgument(if w.text == "" then [] else [ExecPart(w.text, None)], w.quoted)
  }

  function ReadBackAll(ws: seq<Written>): (r: seq<ExecArgument>)
    ensures |r| == |ws|
  {
    if ws == [] then [] else [ReadBack(ws[0])] + ReadBackAll(ws[1..])
  }

  lemma {:induction false} ReadBackMore(a: string, c: char, quoted: bool)
    ensures AppendLiteral(ReadBack(Written(a, quoted)), c) == ReadBack(Written(a + [c], quoted))
  {
    if a == "" {
      assert a + [c] == [c];
      var none: seq<ExecPart> := [];
      assert none + [ExecPart([c], None)] == [ExecPart([c], None)];
    } else {
      var parts := [ExecPart(a, None)];
      assert parts[..|parts| - 1] + [ExecPart(a + [c], None)] == [ExecPart(a + [c], None)];
    }
  }

  /** One written character is one character read, inside quotes and outside. */
  lemma {:induction false} QuotedReadsChar(c: char, tail: string, argument: ExecArgument)
    ensures Quoted(QuoteChar(c) + tail, argument) == Quoted(tail, AppendLiteral(argument, c))
  {
    var s := QuoteChar(c) + tail;
    if |QuoteChar(c)| == 2 {
      assert s[0] == QuoteChar(c)[0] && s[1] == c && s[2..] == tail;
    } else {
      assert s[0] == c && s[1..] == tail;
    }
  }

  lemma {:induction false} UnquotedReadsChar(c: char, tail: string, argument: ExecArgument, target: Option<FieldCode>)
    requires c != ' ' && !IsReservedUnquoted(c)
    ensures Unquoted(QuoteChar(c) + tail, argument, target) == Unquoted(tail, AppendLiteral(argument, c), target)
  {
    ReservedHoldsEscaped(c);
    hide IsReservedUnquoted, DecodeFieldCode;
    var s := QuoteChar(c) + tail;
    if c == '%' {
      assert s[0] == '%' && s[1] == '%' && s[2..] == tail;
    } else {
      assert s[0] == c && s[1..] == tail;
    }
  }

  lemma {:induction false} ReservedHoldsEscaped(c: char)
    ensures EscapedInQuotes(c) ==> IsReservedUnquoted(c)
    ensures !IsReservedUnquoted('%') && IsReservedUnquoted('"')
  {
    var reserved := "\"'\\><~|&;$*?#()`";
    assert reserved[0] == '"' && reserved[2] == '\\' && reserved[9] == '$' && reserved[15] == '`';
  }

  lemma {:induction false} QuotedReadsBody(read: string, a: string, rest: string)
    requires Printable(a)
    ensures Quoted(QuoteBody(a) + "\"" + rest, ReadBack(Written(read, true)))
         == Done((ReadBack(Written(read + a, true)), rest))
    decreases |a|
  {
    if a == "" {
      assert QuoteBody(a) + "\"" + rest == "\"" + rest;
      assert ("\"" + rest)[1..] == rest && read + a == read;
    } else {
      var c := a[0];
      var tail := QuoteBody(a[1..]) + "\"" + rest;
      assert QuoteBody(a) + "\"" + rest == QuoteChar(c) + tail;
      assert read + [c] + a[1..] == read + a;
      hide Quoted, QuoteChar, QuoteBody;
      QuotedReadsChar(c, tail, ReadBack(Written(read, true)));
      ReadBackMore(read, c, true);
      QuotedReadsBody(read + [c], a[1..], rest);
    }
  }

  lemma {:induction false} UnquotedReadsBody(read: string, a: string, rest: string, target: Option<FieldCode>)
    requires Printable(a) && forall i :: 0 <= i < |a| ==> a[i] != ' ' && !IsReservedUnquoted(a[i])
    requires rest == "" || rest[0] == ' '
    ensures Unquoted(QuoteBody(a) + rest, ReadBack(Written(read, false)), target)
         == Done((ReadBack(Written(read + a, false)), rest, target))
    decreases |a|
  {
    if a == "" {
      assert QuoteBody(a) + rest == rest && read + a == read;
    } else {
      hide IsReservedUnquoted;
      var c := a[0];
      var tail := QuoteBody(a[1..]) + rest;
      assert QuoteBody(a) + rest == QuoteChar(c) + tail;
      assert read + [c] + a[1..] == read + a;
      hide Unquoted, QuoteChar, QuoteBody;
      UnquotedReadsChar(c, tail, ReadBack(Written(read, false)), target);
      ReadBackMore(read, c, false);
      UnquotedReadsBody(read + [c], a[1..], rest, target);
    }
  }

  lemma {:induction false} WrittenStartsNonblank(w: Written)
    requires Writable(w)
    ensures Write(w) != "" && Write(w)[0] != ' '
    ensures Write(w)[0] == '"' <==> w.quoted
  {
    if !w.quoted {
      ReservedHoldsEscaped(w.text[0]);
      hide IsReservedUnquoted;
      assert !IsReservedUnquoted(w.text[0]) && w.text[0] != ' ';
      assert QuoteBody(w.text)[0] == QuoteChar(w.text[0])[0];
    }
  }

  lemma {:induction false} ReadQuoted(w: Written, rest: string)
    requires Writable(w) && w.quoted
    ensures Quoted((Write(w) + rest)[1..], ExecArgument([], true)) == Done((ReadBack(w), rest))
  {
    hide Quoted, QuoteBody;
    QuotedReadsBody("", w.text, rest);
    assert (Write(w) + rest)[1..] == QuoteBody(w.text) + "\"" + rest;
    assert "" + w.text == w.text;
  }

  lemma {:induction false} ReadUnquoted(w: Written, rest: string, target: Option<FieldCode>)
    requires Writable(w) && !w.quoted
    requires rest == "" || rest[0] == ' '
    ensures Unquoted(Write(w) + rest, ExecArgument([], false), target) == Done((ReadBack(w), rest, target))
  {
    hide Unquoted, QuoteBody, IsReservedUnquoted;
    UnquotedReadsBody("", w.text, rest, target);
    assert "" + w.text == w.text;
  }

  /** One written argument is read back, and reading continues after it. */
  lemma {:induction false} ArgumentsReadOne(w: Written, rest: string, parsed: ParsedExec)
    requires Writable(w) && |parsed.arguments| < MAXIMUM_ARGUMENTS
    requires rest == "" || rest[0] == ' '
    ensures Arguments(Write(w) + rest, parsed)
         == Arguments(rest, parsed.(arguments := parsed.arguments + [ReadBack(w)]))
  {
    WrittenStartsNonblank(w);
    var s := Write(w) + rest;
    assert s[0] == Write(w)[0];
    assert SkipSpaces(s) == s;
    hide SkipSpaces, QuoteBody, Quoted, Unquoted, IsReservedUnquoted, Printable;
    if w.quoted {
      ReadQuoted(w, rest);
    } else {
      ReadUnquoted(w, rest, parsed.targetCode);
    }
  }

  lemma {:induction false} ArgumentsReadAll(ws: seq<Written>, parsed: ParsedExec)
    requires forall i :: 0 <= i < |ws| ==> Writable(ws[i])
    requires |parsed.arguments| + |ws| <= MAXIMUM_ARGUMENTS
    ensures Arguments(WriteAll(ws), parsed) == Done(parsed.(arguments := parsed.arguments + ReadBackAll(ws)))
  {
    hide Writable, Write, ReadBack;
    if ws == [] {
      assert parsed.arguments + [] == parsed.arguments;
    } else {
      var next := parsed.(arguments := parsed.arguments + [ReadBack(ws[0])]);
      assert next.arguments + ReadBackAll(ws[1..]) == parsed.arguments + ReadBackAll(ws);
      ArgumentsReadAll(ws[1..], next);
      if |ws| == 1 {
        assert Write(ws[0]) + "" == WriteAll(ws);
        ArgumentsReadOne(ws[0], "", parsed);
        assert ws[1..] == [];
      } else {
        var rest := " " + WriteAll(ws[1..]);
        assert WriteAll(ws) == Write(ws[0]) + rest;
        ArgumentsReadOne(ws[0], rest, parsed);
        assert rest[1..] == WriteAll(ws[1..]);
        LeadingBlank(WriteAll(ws[1..]), next);
      }
    }
  }

  lemma {:induction false} LeadingBlank(s: string, parsed: ParsedExec)
    ensures Arguments(" " + s, parsed) == Arguments(s, parsed)
  {
    assert (" " + s)[1..] == s;
    assert SkipSpaces(" " + s) == SkipSpaces(s);
  }

  lemma {:induction false} QuoteBodyIsPrintable(a: string)
    requires Printable(a)
    ensures Printable(QuoteBody(a)) && |a| <= |QuoteBody(a)|
  {
    if a != "" {
      QuoteBodyIsPrintable(a[1..]);
    }
  }

  function Texts(ws: seq<Written>): (r: seq<string>)
    ensures |r| == |ws|
    ensures forall i :: 0 <= i < |ws| ==> r[i] == ws[i].text
  {
    if ws == [] then [] else [ws[0].text] + Texts(ws[1..])
  }

  lemma {:induction false} WriteIsPrintable(w: Written)
    requires Writable(w)
    ensures Printable(Write(w)) && |w.text| <= |Write(w)|
  {
    QuoteBodyIsPrintable(w.text);
  }

  lemma {:induction false} WriteAllIsPrintable(ws: seq<Written>)
    requires forall i :: 0 <= i < |ws| ==> Writable(ws[i])
    ensures Printable(WriteAll(ws)) && TotalBytes(Texts(ws)) <= |WriteAll(ws)|
  {
    if ws != [] {
      WriteIsPrintable(ws[0]);
      hide Writable, Write;
      WriteAllIsPrintable(ws[1..]);
      assert Texts(ws)[1..] == Texts(ws[1..]);
    }
  }

  // ---------------------------------------------------------------- expansion, as functions

  function TotalBytes(argv: seq<string>): nat {
    if argv == [] then 0 else |argv[0]| + TotalBytes(argv[1..])
  }

  /** The vector limit is never exceeded, so the room left in it is never negative. */
  ghost predicate Extends(argv: seq<string>, r: Outcome<seq<string>>) {
    r.Done? ==>
      argv <= r.value && (TotalBytes(argv) <= MAXIMUM_VECTOR_BYTES ==> TotalBytes(r.value) <= MAXIMUM_VECTOR_BYTES)
  }

  lemma {:induction false} TotalBytesAppend(argv: seq<string>, argument: string)
    ensures TotalBytes(argv + [argument]) == TotalBytes(argv) + |argument|
  {
    if argv == [] {
      assert argv + [argument] == [argument] && [argument][1..] == [];
    } else {
      assert (argv + [argument])[1..] == argv[1..] + [argument];
      TotalBytesAppend(argv[1..], argument);
    }
  }

  function Appended(argv: seq<string>, argument: string): (r: Outcome<seq<string>>)
    ensures Extends(argv, r)
  {
    TotalBytesAppend(argv, argument);
    if |argv| >= MAXIMUM_ARGUMENTS then Failed(VectorFull)
    else if HasNul(argument) then Failed(ArgumentHasNul)
    else if |argument| > MAXIMUM_ARGUMENT_BYTES then Failed(ArgumentTooLarge)
    else if |argument| > MAXIMUM_VECTOR_BYTES - TotalBytes(argv) then Failed(VectorTooLarge)
    else Done(argv + [argument])
  }

  function AppendedAll(argv: seq<string>, arguments: seq<string>): (r: Outcome<seq<string>>)
    ensures Extends(argv, r)
    decreases |arguments|
  {
    if arguments == [] then Done(argv)
    else
      match Appended(argv, arguments[0])
      case Failed(f) => Failed(f)
      case Done(more) => AppendedAll(more, arguments[1..])
  }

  datatype Building = Building(expanded: string, removedOnlyContent: bool, preserveEmpty: bool)

  predicate MissingText(text: Option<string>) {
    text.None? || text.value == ""
  }

  /** The replacement of a field code inside an argument, with the flags it leaves. */
  function Replacement(code: FieldCode, entry: ExecEntry, context: ExpansionContext, index: nat, b: Building)
      : Outcome<(string, Building)>
    requires context.targets != [] ==> index < |context.targets|
  {
    match code
    case SingleFile => TargetReplacement(context, index, b)
    case SingleUrl => TargetReplacement(context, index, b)
    case Name =>
      if MissingText(entry.name) || HasNul(entry.name.value) then Failed(InvalidName)
      else Done((entry.name.value, b.(removedOnlyContent := false)))
    case DesktopFile =>
      if context.location.None? then Done(("", b.(preserveEmpty := true)))
      else
        var removed := b.removedOnlyContent && context.location.value == "";
        Done((context.location.value, b.(preserveEmpty := true, removedOnlyContent := removed)))
    case Deprecated => Done(("", b))
    case Files => Failed(CodeNotStandaloneInExpansion)
    case Urls => Failed(CodeNotStandaloneInExpansion)
    case Icon => Failed(CodeNotStandaloneInExpansion)
  }

  function TargetReplacement(context: ExpansionContext, index: nat, b: Building): Outcome<(string, Building)>
    requires context.targets != [] ==> index < |context.targets|
  {
    if context.targets == [] then Done(("", b))
    else Done((context.targets[index], b.(removedOnlyContent := false)))
  }

  function WithLiteral(b: Building, literal: string): Outcome<Building> {
    if literal == "" then Done(b)
    else if |literal| > MAXIMUM_ARGUMENT_BYTES - |b.expanded| then Failed(ArgumentTooLarge)
    else Done(b.(expanded := b.expanded + literal, removedOnlyContent := false))
  }

  function BuildPart(part: ExecPart, entry: ExecEntry, context: ExpansionContext, index: nat,
      b: Building): Outcome<Building>
    requires context.targets != [] ==> index < |context.targets|
  {
    match WithLiteral(b, part.literal)
    case Failed(f) => Failed(f)
    case Done(b1) =>
      if part.fieldCode.None? then Done(b1)
      else
        match Replacement(part.fieldCode.value, entry, context, index, b1)
        case Failed(f) => Failed(f)
        case Done((text, b2)) =>
          if |text| > MAXIMUM_ARGUMENT_BYTES - |b2.expanded| then Failed(ArgumentTooLarge)
          else Done(b2.(expanded := b2.expanded + text))
  }

  function BuildParts(parts: seq<ExecPart>, entry: ExecEntry, context: ExpansionContext, index: nat,
      b: Building): Outcome<Building>
    requires context.targets != [] ==> index < |context.targets|
    decreases |parts|
  {
    if parts == [] then Done(b)
    else
      match BuildPart(parts[0], entry, context, index, b)
      case Failed(f) => Failed(f)
      case Done(next) => BuildParts(parts[1..], entry, context, index, next)
  }

  predicate IsStandaloneCode(argument: ExecArgument) {
    |argument.parts| == 1 && IsMulti(argument.parts[0].fieldCode)
  }

  function ExpandStandalone(code: FieldCode, entry: ExecEntry, context: ExpansionContext,
      argv: seq<string>): (r: Outcome<seq<string>>)
    ensures Extends(argv, r)
  {
    if code == Icon then
      if MissingText(entry.icon) then Done(argv)
      else if HasNul(entry.icon.value) then Failed(InvalidIcon)
      else AppendedAll(argv, ["--icon", entry.icon.value])
    else AppendedAll(argv, context.targets)
  }

  function Expand(argument: ExecArgument, entry: ExecEntry, context: ExpansionContext, index: nat,
      argv: seq<string>): (r: Outcome<seq<string>>)
    requires context.targets != [] ==> index < |context.targets|
    ensures Extends(argv, r)
  {
    if IsStandaloneCode(argument) then
      ExpandStandalone(argument.parts[0].fieldCode.value, entry, context, argv)
    else
      match BuildParts(argument.parts, entry, context, index, Building("", true, argument.preserveExplicitEmpty))
      case Failed(f) => Failed(f)
      case Done(b) =>
        if b.expanded == "" && b.removedOnlyContent && !b.preserveEmpty then Done(argv)
        else Appended(argv, b.expanded)
  }

  function ExpandAll(arguments: seq<ExecArgument>, entry: ExecEntry, context: ExpansionContext, index: nat,
      argv: seq<string>): (r: Outcome<seq<string>>)
    requires context.targets != [] ==> index < |context.targets|
    ensures Extends(argv, r)
    decreases |arguments|
  {
    if arguments == [] then Done(argv)
    else
      match Expand(arguments[0], entry, context, index, argv)
      case Failed(f) => Failed(f)
      case Done(more) => ExpandAll(arguments[1..], entry, context, index, more)
  }

  /** One invocation: the expanded arguments, which must name an executable. */
  function Invocation(parsed: ParsedExec, entry: ExecEntry, context: ExpansionContext, index: nat): Outcome<seq<string>>
    requires context.targets != [] ==> index < |context.targets|
  {
    match ExpandAll(parsed.arguments, entry, context, index, [])
    case Failed(f) => Failed(f)
    case Done(argv) =>
      if argv == [] || argv[0] == "" then Failed(NoExecutableArgument) else Done(argv)
  }

  function Invocations(parsed: ParsedExec, entry: ExecEntry, context: ExpansionContext, index: nat,
      count: nat): Outcome<seq<seq<string>>>
    requires index <= count
    requires context.targets != [] ==> count <= |context.targets|
    decreases count - index
  {
    if index == count then Done([])
    else
      match Invocation(parsed, entry, context, index)
      case Failed(f) => Failed(f)
      case Done(argv) =>
        match Invocations(parsed, entry, context, index + 1, count)
        case Failed(f) => Failed(f)
        case Done(more) => Done([argv] + more)
  }

  function ContextFaultFrom(targets: seq<string>, bytes: nat): Option<Fault>
    decreases |targets|
  {
    if targets == [] then None
    else if targets[0] == "" || HasNul(targets[0]) then Some(InvalidTarget)
    else if |targets[0]| > MAXIMUM_TARGET_BYTES || |targets[0]| > MAXIMUM_TARGET_VECTOR_BYTES - bytes then
      Some(TargetsTooLarge)
    else ContextFaultFrom(targets[1..], bytes + |targets[0]|)
  }

  /** The first fault of an expansion context, if any. */
  function ContextFault(context: ExpansionContext): Option<Fault> {
    if |context.targets| > MAXIMUM_TARGETS || |context.targets| > MAXIMUM_INVOCATIONS then Some(TooManyTargets)
    else if context.kind == NoTargets && context.targets != [] then Some(TargetsWithoutKind)
    else
      var fault := ContextFaultFrom(context.targets, 0);
      if fault.Some? then fault
      else if context.location.Some? && HasNul(context.location.value) then Some(InvalidLocation)
      else if context.location.Some? && |context.location.value| > MAXIMUM_LOCATION_BYTES then Some(LocationTooLarge)
      else None
  }

  predicate IsSingleCode(code: Option<FieldCode>) {
    code == Some(SingleFile) || code == Some(SingleUrl)
  }

  /** One invocation per target for %f and %u, a single one otherwise. */
  function InvocationCount(parsed: ParsedExec, context: ExpansionContext): (n: nat)
    ensures context.targets != [] ==> n <= |context.targets|
  {
    if context.targets != [] && IsSingleCode(parsed.targetCode) then |context.targets| else 1
  }

  function ExpandExec(entry: ExecEntry, context: ExpansionContext): Outcome<seq<seq<string>>> {
    if entry.dbusActivatable then Failed(DbusActivated)
    else if entry.exec.None? then Failed(NoExecValue)
    else if ContextFault(context).Some? then Failed(ContextFault(context).value)
    else
      match Parse(entry.exec.value)
      case Failed(f) => Failed(f)
      case Done(parsed) =>
        if context.targets != [] && parsed.targetCode.None? then Failed(TargetsWithoutCode)
        else if context.targets != [] && (parsed.targetCode == Some(SingleFile) || parsed.targetCode == Some(Files))
                && context.kind != LocalFiles then Failed(NonLocalTargets)
        else if InvocationCount(parsed, context) > MAXIMUM_INVOCATIONS then Failed(TooManyInvocations)
        else Invocations(parsed, entry, context, 0, InvocationCount(parsed, context))
  }

  // ---------------------------------------------------------------- expansion, as the source loops

  method AppendArgument(argv: seq<string>, argument: string) returns (r: Outcome<seq<string>>)
    requires TotalBytes(argv) <= MAXIMUM_VECTOR_BYTES
    ensures r == Appended(argv, argument)
  {
    if |argv| >= MAXIMUM_ARGUMENTS {
      return Failed(VectorFull);
    }
    if HasNul(argument) {
      return Failed(ArgumentHasNul);
    }
    if |argument| > MAXIMUM_ARGUMENT_BYTES {
      return Failed(ArgumentTooLarge);
    }
    var existingBytes := 0;
    assert argv[0..] == argv;
    for i := 0 to |argv|
      invariant existingBytes + TotalBytes(argv[i..]) == TotalBytes(argv)
    {
      assert argv[i..][1..] == argv[i + 1..];
      existingBytes := existingBytes + |argv[i]|;
    }
    assert 0 <= MAXIMUM_VECTOR_BYTES - existingBytes;
    if |argument| > MAXIMUM_VECTOR_BYTES - existingBytes {
      return Failed(VectorTooLarge);
    }
    return Done(argv + [argument]);
  }

  method ExpandArgument(argument: ExecArgument, entry: ExecEntry, context: ExpansionContext, index: nat,
      argv: seq<string>)
      returns (r: Outcome<seq<string>>)
    requires context.targets != [] ==> index < |context.targets|
    requires TotalBytes(argv) <= MAXIMUM_VECTOR_BYTES
    ensures r == Expand(argument, entry, context, index, argv)
  {
    if |argument.parts| == 1 && argument.parts[0].fieldCode.Some? {
      var code := argument.parts[0].fieldCode.value;
      if code == Files || code == Urls {
        r := AppendTargets(argv, context.targets);
        return;
      } else if code == Icon {
        if MissingText(entry.icon) {
          return Done(argv);
        }
        if HasNul(entry.icon.value) {
          return Failed(InvalidIcon);
        }
        r := AppendTargets(argv, ["--icon", entry.icon.value]);
        return;
      }
    }
    hide BuildParts, Appended, ExpandStandalone;
    var built := BuildArgument(argument, entry, context, index);
    if built.Failed? {
      return Failed(built.fault);
    }
    if built.value.expanded == "" && built.value.removedOnlyContent && !built.value.preserveEmpty {
      return Done(argv);
    }
    r := AppendArgument(argv, built.value.expanded);
  }

  /** The loop of expandArgument over the parts of an argument. */
  method BuildArgument(argument: ExecArgument, entry: ExecEntry, context: ExpansionContext, index: nat)
      returns (r: Outcome<Building>)
    requires context.targets != [] ==> index < |context.targets|
    ensures r == BuildParts(argument.parts, entry, context, index, Building("", true, argument.preserveExplicitEmpty))
  {
    var expanded := "";
    var removedOnlyContent := true;
    var preserveEmpty := argument.preserveExplicitEmpty;
    ghost var start := Building("", true, argument.preserveExplicitEmpty);
    assert argument.parts[0..] == argument.parts;
    for i := 0 to |argument.parts|
      invariant BuildParts(argument.parts, entry, context, index, start)
             == BuildParts(argument.parts[i..], entry, context, index,
                 Building(expanded, removedOnlyContent, preserveEmpty))
      invariant |expanded| <= MAXIMUM_ARGUMENT_BYTES
    {
      assert argument.parts[i..][1..] == argument.parts[i + 1..];
      var part := argument.parts[i];
      if part.literal != "" {
        if |part.literal| > MAXIMUM_ARGUMENT_BYTES - |expanded| {
          return Failed(ArgumentTooLarge);
        }
        expanded := expanded + part.literal;
        removedOnlyContent := false;
      }
      if part.fieldCode.None? {
        continue;
      }
      var replacement := "";
      match part.fieldCode.value {
        case SingleFile | SingleUrl =>
          if context.targets != [] {
            replacement := context.targets[index];
            removedOnlyContent := false;
          }
        case Name =>
          if MissingText(entry.name) || HasNul(entry.name.value) {
            return Failed(InvalidName);
          }
          replacement := entry.name.value;
          removedOnlyContent := false;
        case DesktopFile =>
          preserveEmpty := true;
          if context.location.Some? {
            replacement := context.location.value;
            if replacement != "" {
              removedOnlyContent := false;
            }
          }
        case Deprecated =>
        case Files | Urls | Icon =>
          return Failed(CodeNotStandaloneInExpansion);
      }
      if |replacement| > MAXIMUM_ARGUMENT_BYTES - |expanded| {
        return Failed(ArgumentTooLarge);
      }
      expanded := expanded + replacement;
    }
    return Done(Building(expanded, removedOnlyContent, preserveEmpty));
  }

  method AppendTargets(argv: seq<string>, arguments: seq<string>) returns (r: Outcome<seq<string>>)
    requires TotalBytes(argv) <= MAXIMUM_VECTOR_BYTES
    ensures r == AppendedAll(argv, arguments)
  {
    var current := argv;
    assert arguments[0..] == arguments;
    for i := 0 to |arguments|
      invariant TotalBytes(current) <= MAXIMUM_VECTOR_BYTES
      invariant AppendedAll(argv, arguments) == AppendedAll(current, arguments[i..])
    {
      assert arguments[i..][1..] == arguments[i + 1..];
      var appended := AppendArgument(current, arguments[i]);
      if appended.Failed? {
        return appended;
      }
      current := appended.value;
    }
    return Done(current);
  }

  method ValidateExpansionContext(context: ExpansionContext) returns (fault: Option<Fault>)
    ensures fault == ContextFault(context)
  {
    if |context.targets| > MAXIMUM_TARGETS || |context.targets| > MAXIMUM_INVOCATIONS {
      return Some(TooManyTargets);
    }
    if context.kind == NoTargets && context.targets != [] {
      return Some(TargetsWithoutKind);
    }
    var targetBytes: nat := 0;
    assert context.targets[0..] == context.targets;
    for i := 0 to |context.targets|
      invariant targetBytes <= MAXIMUM_TARGET_VECTOR_BYTES
      invariant ContextFaultFrom(context.targets, 0) == ContextFaultFrom(context.targets[i..], targetBytes)
    {
      assert context.targets[i..][1..] == context.targets[i + 1..];
      var target := context.targets[i];
      if target == "" || HasNul(target) {
        return Some(InvalidTarget);
      }
      if |target| > MAXIMUM_TARGET_BYTES || |target| > MAXIMUM_TARGET_VECTOR_BYTES - targetBytes {
        return Some(TargetsTooLarge);
      }
      targetBytes := targetBytes + |target|;
    }
    if context.location.Some? && HasNul(context.location.value) {
      return Some(InvalidLocation);
    }
    if context.location.Some? && |context.location.value| > MAXIMUM_LOCATION_BYTES {
      return Some(LocationTooLarge);
    }
    return None;
  }

  method ExpandDesktopExec(entry: ExecEntry, context: ExpansionContext) returns (r: Outcome<seq<seq<string>>>)
    ensures r == ExpandExec(entry, context)
  {
    if entry.dbusActivatable {
      return Failed(DbusActivated);
    }
    if entry.exec.None? {
      return Failed(NoExecValue);
    }
    var contextFault := ValidateExpansionContext(context);
    if contextFault.Some? {
      return Failed(contextFault.value);
    }
    var parse := ParseExec(entry.exec.value);
    if parse.Failed? {
      return Failed(parse.fault);
    }
    var parsed := parse.value;
    var targetCode := parsed.targetCode;
    if context.targets != [] && targetCode.None? {
      return Failed(TargetsWithoutCode);
    }
    if context.targets != [] && (targetCode == Some(SingleFile) || targetCode == Some(Files))
      && context.kind != LocalFiles {
      return Failed(NonLocalTargets);
    }
    var invocationCount := 1;
    if context.targets != [] && (targetCode == Some(SingleFile) || targetCode == Some(SingleUrl)) {
      invocationCount := |context.targets|;
    }
    if invocationCount > MAXIMUM_INVOCATIONS {
      return Failed(TooManyInvocations);
    }
    r := RunInvocations(parsed, entry, context, invocationCount);
  }

  method RunInvocations(parsed: ParsedExec, entry: ExecEntry, context: ExpansionContext, count: nat)
      returns (r: Outcome<seq<seq<string>>>)
    requires context.targets != [] ==> count <= |context.targets|
    ensures r == Invocations(parsed, entry, context, 0, count)
  {
    var invocations: seq<seq<string>> := [];
    var invocationIndex: nat := 0;
    PrependNothing(Invocations(parsed, entry, context, 0, count));
    while invocationIndex < count
      invariant invocationIndex <= count
      invariant Invocations(parsed, entry, context, 0, count)
             == Prepend(invocations, Invocations(parsed, entry, context, invocationIndex, count))
    {
      var argv: seq<string> := [];
      var arguments := parsed.arguments;
      assert arguments[0..] == arguments;
      for i := 0 to |arguments|
        invariant TotalBytes(argv) <= MAXIMUM_VECTOR_BYTES
        invariant ExpandAll(arguments, entry, context, invocationIndex, [])
               == ExpandAll(arguments[i..], entry, context, invocationIndex, argv)
      {
        assert arguments[i..][1..] == arguments[i + 1..];
        var expanded := ExpandArgument(arguments[i], entry, context, invocationIndex, argv);
        if expanded.Failed? {
          return Failed(expanded.fault);
        }
        argv := expanded.value;
      }
      if argv == [] || argv[0] == "" {
        return Failed(NoExecutableArgument);
      }
      PrependMore(invocations, argv, Invocations(parsed, entry, context, invocationIndex + 1, count));
      invocations := invocations + [argv];
      invocationIndex := invocationIndex + 1;
    }
    assert invocations + [] == invocations;
    return Done(invocations);
  }

  function Prepend(done: seq<seq<string>>, rest: Outcome<seq<seq<string>>>): Outcome<seq<seq<string>>> {
    match rest case Failed(f) => Failed(f) case Done(more) => Done(done + more)
  }

  lemma {:induction false} PrependNothing(rest: Outcome<seq<seq<string>>>)
    ensures Prepend([], rest) == rest
  {
    if rest.Done? { assert [] + rest.value == rest.value; }
  }

  lemma {:induction false} PrependMore(done: seq<seq<string>>, argv: seq<string>, rest: Outcome<seq<seq<string>>>)
    ensures Prepend(done, Prepend([argv], rest)) == Prepend(done + [argv], rest)
  {
    if rest.Done? { assert done + ([argv] + rest.value) == done + [argv] + rest.value; }
  }

  // ---------------------------------------------------------------- expansion undoes quoting

  lemma {:induction false} ReadBackAllAt(ws: seq<Written>, i: nat)
    requires i < |ws|
    ensures ReadBackAll(ws)[i] == ReadBack(ws[i])
  {
    if i > 0 {
      ReadBackAllAt(ws[1..], i - 1);
    }
  }

  lemma {:induction false} ReadBackIsLiteral(w: Written)
    ensures LiteralText(ReadBack(w).parts) == w.text
    ensures !HasFieldCode(ReadBack(w)) && Standalone(ReadBack(w)) && !IsStandaloneCode(ReadBack(w))
  {
    if w.text != "" {
      assert ReadBack(w).parts[1..] == [];
      assert w.text + "" == w.text;
    }
  }

  lemma {:induction false} ParseUndoesWriting(ws: seq<Written>)
    requires 1 <= |ws| <= MAXIMUM_ARGUMENTS && forall i :: 0 <= i < |ws| ==> Writable(ws[i])
    requires ws[0].text != "" && '=' !in ws[0].text
    requires |WriteAll(ws)| <= MAXIMUM_EXEC_BYTES
    ensures Parse(WriteAll(ws)) == Done(ParsedExec(ReadBackAll(ws), None))
  {
    WriteAllIsPrintable(ws);
    ArgumentsReadAll(ws, ParsedExec([], None));
    assert [] + ReadBackAll(ws) == ReadBackAll(ws);
    assert WriteAll(ws) != "";
    hide Arguments, WriteAll, Write, Writable;
    var parsed := ParsedExec(ReadBackAll(ws), None);
    ReadBackAllAt(ws, 0);
    ReadBackIsLiteral(ws[0]);
    forall i | 0 <= i < |ws| ensures Standalone(parsed.arguments[i]) {
      ReadBackAllAt(ws, i);
      ReadBackIsLiteral(ws[i]);
    }
    hide Standalone, HasFieldCode, ReadBack, ReadBackAll, LiteralText;
    assert CheckParsed(parsed) == Done(parsed);
  }

  lemma {:induction false} ExpandReadBack(w: Written, entry: ExecEntry, context: ExpansionContext, argv: seq<string>)
    requires Printable(w.text) && (w.quoted || w.text != "") && context.targets == []
    requires |argv| < MAXIMUM_ARGUMENTS && TotalBytes(argv) + |w.text| <= MAXIMUM_ARGUMENT_BYTES
    ensures Expand(ReadBack(w), entry, context, 0, argv) == Done(argv + [w.text])
  {
    var start := Building("", true, w.quoted);
    if w.text != "" {
      var parts := [ExecPart(w.text, None)];
      assert parts[1..] == [];
      assert BuildPart(parts[0], entry, context, 0, start) == Done(Building("" + w.text, false, w.quoted));
      assert "" + w.text == w.text;
      assert BuildParts(parts[1..], entry, context, 0, Building(w.text, false, w.quoted))
             == Done(Building(w.text, false, w.quoted));
    }
    assert !HasNul(w.text) by {
      assert !IsPrintable('\0');
    }
  }

  lemma {:induction false} WritableText(w: Written)
    requires Writable(w)
    ensures Printable(w.text) && (w.quoted || w.text != "")
  {
  }

  lemma {:induction false} ExpandAllReadsBack(ws: seq<Written>, entry: ExecEntry, context: ExpansionContext,
      argv: seq<string>)
    requires context.targets == [] && forall i :: 0 <= i < |ws| ==> Writable(ws[i])
    requires |argv| + |ws| <= MAXIMUM_ARGUMENTS && TotalBytes(argv) + TotalBytes(Texts(ws)) <= MAXIMUM_ARGUMENT_BYTES
    ensures ExpandAll(ReadBackAll(ws), entry, context, 0, argv) == Done(argv + Texts(ws))
    decreases |ws|
  {
    hide Writable, Printable, Expand, ReadBack, Extends;
    if ws == [] {
      assert argv + [] == argv;
    } else {
      var w, next := ws[0], argv + [ws[0].text];
      assert Texts(ws)[1..] == Texts(ws[1..]);
      assert next + Texts(ws[1..]) == argv + Texts(ws);
      assert ReadBackAll(ws)[1..] == ReadBackAll(ws[1..]);
      assert TotalBytes(Texts(ws)) == |w.text| + TotalBytes(Texts(ws[1..]));
      TotalBytesAppend(argv, w.text);
      assert |next| + |ws[1..]| <= MAXIMUM_ARGUMENTS;
      hide TotalBytes, Texts;
      WritableText(w);
      ExpandReadBack(w, entry, context, argv);
      ExpandAllReadsBack(ws[1..], entry, context, next);
    }
  }

  /**
   Section 7 of the Desktop Entry Specification 1.5, reversed: any printable arguments, each written in
   quotes or bare, are expanded without targets to exactly those arguments, empty ones included.
   */
  lemma {:induction false} ExpansionUndoesQuoting(ws: seq<Written>, entry: ExecEntry, context: ExpansionContext)
    requires 1 <= |ws| <= MAXIMUM_ARGUMENTS && forall i :: 0 <= i < |ws| ==> Writable(ws[i])
    requires ws[0].text != "" && '=' !in ws[0].text
    requires |WriteAll(ws)| <= MAXIMUM_EXEC_BYTES
    requires entry.exec == Some(WriteAll(ws)) && !entry.dbusActivatable
    requires context.targets == [] && ContextFault(context).None?
    ensures ExpandExec(entry, context) == Done([Texts(ws)])
  {
    ParseUndoesWriting(ws);
    WriteAllIsPrintable(ws);
    ExpandAllReadsBack(ws, entry, context, []);
    assert [] + Texts(ws) == Texts(ws);
    hide Parse, ExpandAll, WriteAll, Writable, ContextFault, ReadBackAll;
    var parsed := ParsedExec(ReadBackAll(ws), None);
    assert Invocation(parsed, entry, context, 0) == Done(Texts(ws));
    assert Invocations(parsed, entry, context, 1, 1) == Done([]);
    assert [Texts(ws)] + [] == [Texts(ws)];
  }

  // ---------------------------------------------------------------- templates

  /** A stretch of an expanded argument: fixed text, or the place of a target. */
  datatype Piece = Text(text: string) | Target(index: nat)

  function CodePieces(code: FieldCode, entry: ExecEntry, location: Option<string>, n: nat, index: nat): seq<Piece> {
    match code
    case SingleFile => if n == 0 then [] else [Target(index)]
    case SingleUrl => if n == 0 then [] else [Target(index)]
    case Name => if entry.name.None? then [] else [Text(entry.name.value)]
    case DesktopFile => if location.None? then [] else [Text(location.value)]
    case _ => []
  }

  function PartPieces(part: ExecPart, entry: ExecEntry, location: Option<string>, n: nat, index: nat): seq<Piece> {
    (if part.literal == "" then [] else [Text(part.literal)])
    + (if part.fieldCode.None? then [] else CodePieces(part.fieldCode.value, entry, location, n, index))
  }

  function PartsPieces(parts: seq<ExecPart>, entry: ExecEntry, location: Option<string>, n: nat,
      index: nat): seq<Piece> {
    if parts == [] then []
    else PartPieces(parts[0], entry, location, n, index) + PartsPieces(parts[1..], entry, location, n, index)
  }

  predicate PieceShows(piece: Piece) {
    piece.Target? || piece.text != ""
  }

  predicate Shows(pieces: seq<Piece>) {
    exists i :: 0 <= i < |pieces| && PieceShows(pieces[i])
  }

  predicate NamesDesktopFile(parts: seq<ExecPart>) {
    exists i :: 0 <= i < |parts| && parts[i].fieldCode == Some(DesktopFile)
  }

  function TargetSlots(n: nat): (r: seq<seq<Piece>>)
    ensures |r| == n && forall i :: 0 <= i < n ==> r[i] == [Target(i)]
  {
    seq(n, i requires 0 <= i < n => [Target(i)])
  }

  /** The argument slots an argument expands to. They depend on how many targets there are, not on what they say. */
  function Slots(argument: ExecArgument, entry: ExecEntry, location: Option<string>, n: nat,
      index: nat): seq<seq<Piece>> {
    if IsStandaloneCode(argument) then
      if argument.parts[0].fieldCode != Some(Icon) then TargetSlots(n)
      else if MissingText(entry.icon) then []
      else [[Text("--icon")], [Text(entry.icon.value)]]
    else
      var pieces := PartsPieces(argument.parts, entry, location, n, index);
      if argument.preserveExplicitEmpty || NamesDesktopFile(argument.parts) || Shows(pieces) then [pieces] else []
  }

  function Template(arguments: seq<ExecArgument>, entry: ExecEntry, location: Option<string>, n: nat,
      index: nat): seq<seq<Piece>> {
    if arguments == [] then []
    else Slots(arguments[0], entry, location, n, index) + Template(arguments[1..], entry, location, n, index)
  }

  function FillPiece(piece: Piece, targets: seq<string>): string {
    match piece
    case Text(text) => text
    case Target(index) => if index < |targets| then targets[index] else ""
  }

  function FillSlot(pieces: seq<Piece>, targets: seq<string>): string {
    if pieces == [] then "" else FillPiece(pieces[0], targets) + FillSlot(pieces[1..], targets)
  }

  function Fill(slots: seq<seq<Piece>>, targets: seq<string>): (r: seq<string>)
    ensures |r| == |slots|
    ensures forall i :: 0 <= i < |slots| ==> r[i] == FillSlot(slots[i], targets)
  {
    if slots == [] then [] else [FillSlot(slots[0], targets)] + Fill(slots[1..], targets)
  }

  lemma {:induction false} FillSlotAppend(a: seq<Piece>, b: seq<Piece>, targets: seq<string>)
    ensures FillSlot(a + b, targets) == FillSlot(a, targets) + FillSlot(b, targets)
  {
    if a == [] {
      assert a + b == b;
    } else {
      assert (a + b)[1..] == a[1..] + b;
      FillSlotAppend(a[1..], b, targets);
    }
  }

  lemma {:induction false} FillOnePiece(piece: Piece, targets: seq<string>)
    ensures FillSlot([piece], targets) == FillPiece(piece, targets)
  {
    assert [piece][1..] == [];
    assert FillPiece(piece, targets) + "" == FillPiece(piece, targets);
  }

  lemma {:induction false} ShowsAppend(a: seq<Piece>, b: seq<Piece>)
    ensures Shows(a + b) == (Shows(a) || Shows(b))
  {
    hide PieceShows;
    if i :| 0 <= i < |a| && PieceShows(a[i]) {
      assert (a + b)[i] == a[i];
    } else if i :| 0 <= i < |b| && PieceShows(b[i]) {
      assert (a + b)[|a| + i] == b[i];
    }
  }

  lemma {:induction false} ShowsOne(piece: Piece)
    ensures Shows([piece]) == PieceShows(piece)
    ensures !Shows([])
  {
    assert [piece][0] == piece;
  }

  /** What building an argument from some pieces leaves behind. */
  function Built(b: Building, pieces: seq<Piece>, targets: seq<string>, keep: bool): Building {
    Building(b.expanded + FillSlot(pieces, targets), b.removedOnlyContent && !Shows(pieces), b.preserveEmpty || keep)
  }

  lemma {:induction false} BuiltTwice(b: Building, first: seq<Piece>, second: seq<Piece>, targets: seq<string>,
      k1: bool, k2: bool)
    ensures Built(Built(b, first, targets, k1), second, targets, k2) == Built(b, first + second, targets, k1 || k2)
  {
    ShowsAppend(first, second);
    FillSlotAppend(first, second, targets);
    assert b.expanded + FillSlot(first, targets) + FillSlot(second, targets)
        == b.expanded + (FillSlot(first, targets) + FillSlot(second, targets));
  }

  ghost predicate NonemptyTargets(context: ExpansionContext) {
    forall i :: 0 <= i < |context.targets| ==> context.targets[i] != ""
  }

  lemma {:induction false} CodeFillsPieces(code: FieldCode, entry: ExecEntry, context: ExpansionContext, index: nat,
      b: Building)
    requires context.targets != [] ==> index < |context.targets|
    requires NonemptyTargets(context)
    ensures var r := Replacement(code, entry, context, index, b);
      var pieces := CodePieces(code, entry, context.location, |context.targets|, index);
      r.Done? ==>
        r.value.1.(expanded := r.value.1.expanded + r.value.0) == Built(b, pieces, context.targets, code == DesktopFile)
  {
    var pieces := CodePieces(code, entry, context.location, |context.targets|, index);
    assert b.expanded + "" == b.expanded;
    if pieces == [] {
      ShowsOne(Text(""));
      assert FillSlot(pieces, context.targets) == "";
    } else {
      assert pieces == [pieces[0]];
      ShowsOne(pieces[0]);
      FillOnePiece(pieces[0], context.targets);
    }
  }

  lemma {:induction false} LiteralFillsPieces(literal: string, b: Building, targets: seq<string>)
    ensures var r := WithLiteral(b, literal);
      r.Done? ==> r.value == Built(b, if literal == "" then [] else [Text(literal)], targets, false)
  {
    ShowsOne(Text(literal));
    FillOnePiece(Text(literal), targets);
    assert b.expanded + FillSlot([], targets) == b.expanded;
  }

  lemma {:induction false} PartFillsPieces(part: ExecPart, entry: ExecEntry, context: ExpansionContext, index: nat,
      b: Building)
    requires context.targets != [] ==> index < |context.targets|
    requires NonemptyTargets(context)
    ensures var r := BuildPart(part, entry, context, index, b);
      r.Done? ==> r.value == Built(b, PartPieces(part, entry, context.location, |context.targets|, index),
        context.targets,
                                   part.fieldCode == Some(DesktopFile))
  {
    hide WithLiteral, Replacement, Built, CodePieces, NonemptyTargets;
    var n := |context.targets|;
    var literal := if part.literal == "" then [] else [Text(part.literal)];
    LiteralFillsPieces(part.literal, b, context.targets);
    var b1 := Built(b, literal, context.targets, false);
    if part.fieldCode.None? {
      assert literal + [] == literal;
    } else {
      var code := part.fieldCode.value;
      CodeFillsPieces(code, entry, context, index, b1);
      BuiltTwice(b, literal, CodePieces(code, entry, context.location, n, index), context.targets, false,
        code == DesktopFile);
    }
  }

  lemma {:induction false} PartsFillPieces(parts: seq<ExecPart>, entry: ExecEntry, context: ExpansionContext,
      index: nat, b: Building)
    requires context.targets != [] ==> index < |context.targets|
    requires NonemptyTargets(context)
    ensures var r := BuildParts(parts, entry, context, index, b);
      r.Done? ==> r.value == Built(b, PartsPieces(parts, entry, context.location, |context.targets|, index),
        context.targets,
                                   NamesDesktopFile(parts))
    decreases |parts|
  {
    var n := |context.targets|;
    if parts == [] {
      assert b.expanded + FillSlot([], context.targets) == b.expanded;
    } else {
      assert NamesDesktopFile(parts) == (parts[0].fieldCode == Some(DesktopFile) || NamesDesktopFile(parts[1..])) by {
        if i :| 0 <= i < |parts| && parts[i].fieldCode == Some(DesktopFile) {
          assert i > 0 ==> parts[1..][i - 1] == parts[i];
        }
      }
      hide BuildPart, Built, PartPieces, NamesDesktopFile, NonemptyTargets;
      PartFillsPieces(parts[0], entry, context, index, b);
      var first := BuildPart(parts[0], entry, context, index, b);
      if first.Done? {
        PartsFillPieces(parts[1..], entry, context, index, first.value);
        BuiltTwice(b, PartPieces(parts[0], entry, context.location, n, index),
                   PartsPieces(parts[1..], entry, context.location, n, index), context.targets,
                   parts[0].fieldCode == Some(DesktopFile), NamesDesktopFile(parts[1..]));
      }
    }
  }

  lemma {:induction false} AppendedAllAppends(argv: seq<string>, arguments: seq<string>)
    ensures var r := AppendedAll(argv, arguments); r.Done? ==> r.value == argv + arguments
    decreases |arguments|
  {
    if arguments != [] && Appended(argv, arguments[0]).Done? {
      AppendedAllAppends(argv + [arguments[0]], arguments[1..]);
      assert argv + [arguments[0]] + arguments[1..] == argv + arguments;
    }
  }

  lemma {:induction false} StandaloneFillsSlots(argument: ExecArgument, entry: ExecEntry, context: ExpansionContext,
      index: nat, argv: seq<string>)
    requires IsStandaloneCode(argument)
    ensures var r := ExpandStandalone(argument.parts[0].fieldCode.value, entry, context, argv);
      r.Done? ==> r.value == argv + Fill(Slots(argument, entry, context.location, |context.targets|, index),
        context.targets)
  {
    hide AppendedAll, FillSlot;
    var slots := Slots(argument, entry, context.location, |context.targets|, index);
    if argument.parts[0].fieldCode != Some(Icon) {
      forall i | 0 <= i < |slots| ensures FillSlot(slots[i], context.targets) == context.targets[i] {
        FillOnePiece(Target(i), context.targets);
      }
      assert Fill(slots, context.targets) == context.targets;
      AppendedAllAppends(argv, context.targets);
    } else if !MissingText(entry.icon) {
      FillOnePiece(Text("--icon"), context.targets);
      FillOnePiece(Text(entry.icon.value), context.targets);
      assert Fill(slots, context.targets) == ["--icon", entry.icon.value];
      AppendedAllAppends(argv, ["--icon", entry.icon.value]);
    }
  }

  lemma {:induction false} ExpandFillsSlots(argument: ExecArgument, entry: ExecEntry, context: ExpansionContext,
      index: nat, argv: seq<string>)
    requires context.targets != [] ==> index < |context.targets|
    requires NonemptyTargets(context)
    ensures var r := Expand(argument, entry, context, index, argv);
      r.Done? ==> r.value == argv + Fill(Slots(argument, entry, context.location, |context.targets|, index),
        context.targets)
  {
    if IsStandaloneCode(argument) {
      StandaloneFillsSlots(argument, entry, context, index, argv);
    } else {
      var start := Building("", true, argument.preserveExplicitEmpty);
      PartsFillPieces(argument.parts, entry, context, index, start);
      var pieces := PartsPieces(argument.parts, entry, context.location, |context.targets|, index);
      assert "" + FillSlot(pieces, context.targets) == FillSlot(pieces, context.targets);
      if !Shows(pieces) {
        HiddenIsEmpty(pieces, context);
      }
      hide BuildParts, PartsPieces, FillSlot, Shows, NamesDesktopFile, NonemptyTargets, Extends;
      assert argv + [] == argv;
    }
  }

  lemma {:induction false} HiddenIsEmpty(pieces: seq<Piece>, context: ExpansionContext)
    requires !Shows(pieces)
    ensures FillSlot(pieces, context.targets) == ""
    decreases |pieces|
  {
    if pieces != [] {
      assert !PieceShows(pieces[0]);
      assert !Shows(pieces[1..]) by {
        ShowsAppend([pieces[0]], pieces[1..]);
        assert [pieces[0]] + pieces[1..] == pieces;
      }
      HiddenIsEmpty(pieces[1..], context);
    }
  }

  lemma {:induction false} FillAppend(argv: seq<string>, a: seq<seq<Piece>>, b: seq<seq<Piece>>, targets: seq<string>)
    ensures argv + Fill(a, targets) + Fill(b, targets) == argv + Fill(a + b, targets)
  {
    hide FillSlot, Fill;
    var joined := Fill(a + b, targets);
    assert joined[..|a|] == Fill(a, targets);
    assert joined[|a|..] == Fill(b, targets);
  }

  lemma {:induction false} ExpandAllFillsTemplate(arguments: seq<ExecArgument>, entry: ExecEntry,
      context: ExpansionContext, index: nat, argv: seq<string>)
    requires context.targets != [] ==> index < |context.targets|
    requires NonemptyTargets(context)
    ensures var r := ExpandAll(arguments, entry, context, index, argv);
      r.Done? ==> r.value == argv + Fill(Template(arguments, entry, context.location, |context.targets|, index),
        context.targets)
    decreases |arguments|
  {
    var n, location, targets := |context.targets|, context.location, context.targets;
    if arguments == [] {
      assert argv + [] == argv;
    } else {
      ExpandFillsSlots(arguments[0], entry, context, index, argv);
      var first := Expand(arguments[0], entry, context, index, argv);
      var a, b := Slots(arguments[0], entry, location, n, index), Template(arguments[1..], entry, location, n, index);
      assert Template(arguments, entry, location, n, index) == a + b;
      if first.Done? {
        assert ExpandAll(arguments, entry, context, index, argv)
               == ExpandAll(arguments[1..], entry, context, index, first.value);
        hide *;
        ExpandAllFillsTemplate(arguments[1..], entry, context, index, first.value);
        FillAppend(argv, a, b, targets);
      }
    }
  }

  // ---------------------------------------------------------------- which targets a template names

  function PieceTargets(piece: Piece): seq<nat> {
    if piece.Target? then [piece.index] else []
  }

  function SlotTargets(pieces: seq<Piece>): seq<nat> {
    if pieces == [] then [] else PieceTargets(pieces[0]) + SlotTargets(pieces[1..])
  }

  /** The targets that argument slots name, in the order they are read. */
  function SlotsTargets(slots: seq<seq<Piece>>): seq<nat> {
    if slots == [] then [] else SlotTargets(slots[0]) + SlotsTargets(slots[1..])
  }

  function Range(first: nat, limit: nat): (r: seq<nat>)
    requires first <= limit
    ensures |r| == limit - first
    decreases limit - first
  {
    if first == limit then [] else [first] + Range(first + 1, limit)
  }

  lemma {:induction false} RangeAt(first: nat, limit: nat, i: nat)
    requires first <= limit && i < limit - first
    ensures Range(first, limit)[i] == first + i
    decreases limit - first
  {
    if i > 0 {
      RangeAt(first + 1, limit, i - 1);
    }
  }

  /** A single-target code names the invocation's own target, a multi-target code names them all. */
  function CodeTargets(code: FieldCode, n: nat, index: nat): seq<nat> {
    if code == SingleFile || code == SingleUrl then [index] else Range(0, n)
  }

  function CodesTargets(codes: seq<FieldCode>, n: nat, index: nat): seq<nat> {
    if codes == [] then [] else CodeTargets(codes[0], n, index) + CodesTargets(codes[1..], n, index)
  }

  lemma {:induction false} SlotTargetsAppend(a: seq<Piece>, b: seq<Piece>)
    ensures SlotTargets(a + b) == SlotTargets(a) + SlotTargets(b)
  {
    if a == [] {
      assert a + b == b;
    } else {
      assert (a + b)[1..] == a[1..] + b;
      SlotTargetsAppend(a[1..], b);
    }
  }

  lemma {:induction false} SlotsTargetsAppend(a: seq<seq<Piece>>, b: seq<seq<Piece>>)
    ensures SlotsTargets(a + b) == SlotsTargets(a) + SlotsTargets(b)
  {
    if a == [] {
      assert a + b == b;
    } else {
      assert (a + b)[1..] == a[1..] + b;
      SlotsTargetsAppend(a[1..], b);
    }
  }

  lemma {:induction false} CodesTargetsAppend(a: seq<FieldCode>, b: seq<FieldCode>, n: nat, index: nat)
    ensures CodesTargets(a + b, n, index) == CodesTargets(a, n, index) + CodesTargets(b, n, index)
  {
    if a == [] {
      assert a + b == b;
    } else {
      assert (a + b)[1..] == a[1..] + b;
      CodesTargetsAppend(a[1..], b, n, index);
    }
  }

  lemma {:induction false} TargetSlotsNameAll(slots: seq<seq<Piece>>, from: nat, n: nat)
    requires from <= n && |slots| == n - from
    requires forall i :: 0 <= i < |slots| ==> slots[i] == [Target(from + i)]
    ensures SlotsTargets(slots) == Range(from, n)
    decreases n - from
  {
    if from == n {
      assert slots == [];
    } else {
      assert slots[0] == [Target(from)] && [Target(from)][1..] == [];
      assert SlotTargets([Target(from)]) == [from] + [] == [from];
      TargetSlotsNameAll(slots[1..], from + 1, n);
    }
  }

  predicate NoMulti(parts: seq<ExecPart>) {
    forall i :: 0 <= i < |parts| ==> !IsMulti(parts[i].fieldCode)
  }

  lemma {:induction false} PartNamesTargets(part: ExecPart, entry: ExecEntry, location: Option<string>, n: nat,
      index: nat)
    requires n > 0 && !IsMulti(part.fieldCode)
    ensures SlotTargets(PartPieces(part, entry, location, n, index))
         == CodesTargets(TargetCodesOfParts([part]), n, index)
  {
    OnePartCodes(part);
    var literal := if part.literal == "" then [] else [Text(part.literal)];
    assert [Text(part.literal)][1..] == [];
    assert SlotTargets(literal) == [];
    if part.fieldCode.Some? {
      var pieces := CodePieces(part.fieldCode.value, entry, location, n, index);
      SlotTargetsAppend(literal, pieces);
      assert |pieces| <= 1;
      assert pieces != [] ==> pieces == [pieces[0]] && pieces[1..] == [];
      assert [part.fieldCode.value][1..] == [];
      assert [index] + [] == [index];
    } else {
      assert literal + [] == literal;
    }
  }

  lemma {:induction false} PartsNameTargets(parts: seq<ExecPart>, entry: ExecEntry, location: Option<string>, n: nat,
      index: nat)
    requires n > 0 && NoMulti(parts)
    ensures SlotTargets(PartsPieces(parts, entry, location, n, index))
         == CodesTargets(TargetCodesOfParts(parts), n, index)
  {
    if parts != [] {
      PartNamesTargets(parts[0], entry, location, n, index);
      PartsNameTargets(parts[1..], entry, location, n, index);
      assert parts == [parts[0]] + parts[1..];
      TargetCodesOfPartsAppend([parts[0]], parts[1..]);
      CodesTargetsAppend(TargetCodesOfParts([parts[0]]), TargetCodesOfParts(parts[1..]), n, index);
      SlotTargetsAppend(PartPieces(parts[0], entry, location, n, index),
        PartsPieces(parts[1..], entry, location, n, index));
    }
  }

  lemma {:induction false} HiddenNamesNothing(pieces: seq<Piece>)
    requires !Shows(pieces)
    ensures SlotTargets(pieces) == []
  {
    if pieces != [] {
      assert !PieceShows(pieces[0]);
      ShowsAppend([pieces[0]], pieces[1..]);
      assert [pieces[0]] + pieces[1..] == pieces;
      HiddenNamesNothing(pieces[1..]);
    }
  }

  lemma {:induction false} SlotsNameTargets(argument: ExecArgument, entry: ExecEntry, location: Option<string>,
      n: nat, index: nat)
    requires n > 0 && Standalone(argument)
    ensures SlotsTargets(Slots(argument, entry, location, n, index))
         == CodesTargets(TargetCodesOfParts(argument.parts), n, index)
  {
    if IsStandaloneCode(argument) {
      StandaloneNamesTargets(argument, entry, location, n, index);
    } else {
      assert NoMulti(argument.parts);
      PartsNameTargets(argument.parts, entry, location, n, index);
      var pieces := PartsPieces(argument.parts, entry, location, n, index);
      if !Shows(pieces) {
        HiddenNamesNothing(pieces);
      }
      assert [pieces][1..] == [];
      assert SlotTargets(pieces) + [] == SlotTargets(pieces);
    }
  }

  lemma {:induction false} StandaloneNamesTargets(argument: ExecArgument, entry: ExecEntry, location: Option<string>,
      n: nat, index: nat)
    requires n > 0 && IsStandaloneCode(argument)
    ensures SlotsTargets(Slots(argument, entry, location, n, index))
         == CodesTargets(TargetCodesOfParts(argument.parts), n, index)
  {
    var part := argument.parts[0];
    assert argument.parts == [part];
    OnePartCodes(part);
    if part.fieldCode != Some(Icon) {
      TargetSlotsNameAll(TargetSlots(n), 0, n);
      assert [part.fieldCode.value][1..] == [];
      assert Range(0, n) + [] == Range(0, n);
    } else if !MissingText(entry.icon) {
      var a, b := [Text("--icon")], [Text(entry.icon.value)];
      assert a[1..] == [] && b[1..] == [];
      assert SlotTargets(a) == [] && SlotTargets(b) == [];
      SlotsTargetsAppend([a], [b]);
      assert [a][1..] == [] && [b][1..] == [];
      assert [a] + [b] == [a, b];
    }
  }

  lemma {:induction false} TemplateNamesTargets(arguments: seq<ExecArgument>, entry: ExecEntry,
      location: Option<string>, n: nat, index: nat)
    requires n > 0 && AllStandalone(arguments)
    ensures SlotsTargets(Template(arguments, entry, location, n, index))
         == CodesTargets(TargetCodes(arguments), n, index)
  {
    hide Slots, Standalone;
    if arguments != [] {
      SlotsNameTargets(arguments[0], entry, location, n, index);
      TemplateNamesTargets(arguments[1..], entry, location, n, index);
      SlotsTargetsAppend(Slots(arguments[0], entry, location, n, index),
        Template(arguments[1..], entry, location, n, index));
      CodesTargetsAppend(TargetCodesOfParts(arguments[0].parts), TargetCodes(arguments[1..]), n, index);
    }
  }

  // ---------------------------------------------------------------- the template theorem

  /** The templates of the invocations from a given one on. */
  function Templates(parsed: ParsedExec, entry: ExecEntry, location: Option<string>, n: nat, index: nat,
      count: nat): (r: seq<seq<seq<Piece>>>)
    requires index <= count
    ensures |r| == count - index
    decreases count - index
  {
    if index == count then []
    else [Template(parsed.arguments, entry, location, n, index)] + Templates(parsed, entry, location, n, index + 1,
      count)
  }

  function FillEach(templates: seq<seq<seq<Piece>>>, targets: seq<string>): (r: seq<seq<string>>)
    ensures |r| == |templates| && forall i :: 0 <= i < |r| ==> r[i] == Fill(templates[i], targets)
  {
    if templates == [] then [] else [Fill(templates[0], targets)] + FillEach(templates[1..], targets)
  }

  function TemplatesTargets(templates: seq<seq<seq<Piece>>>): seq<nat> {
    if templates == [] then [] else SlotsTargets(templates[0]) + TemplatesTargets(templates[1..])
  }

  lemma {:induction false} InvocationsFillTemplates(parsed: ParsedExec, entry: ExecEntry, context: ExpansionContext,
      index: nat, count: nat)
    requires index <= count && (context.targets != [] ==> count <= |context.targets|)
    requires NonemptyTargets(context)
    ensures var r := Invocations(parsed, entry, context, index, count);
      r.Done? ==> r.value == FillEach(Templates(parsed, entry, context.location, |context.targets|, index, count),
        context.targets)
    decreases count - index
  {
    hide ExpandAll, Template, Fill, NonemptyTargets;
    if index < count {
      ExpandAllFillsTemplate(parsed.arguments, entry, context, index, []);
      InvocationsFillTemplates(parsed, entry, context, index + 1, count);
      var template := Template(parsed.arguments, entry, context.location, |context.targets|, index);
      assert [] + Fill(template, context.targets) == Fill(template, context.targets);
    }
  }

  lemma {:induction false} SingleTemplatesNameTargets(parsed: ParsedExec, entry: ExecEntry, location: Option<string>,
      n: nat, index: nat)
    requires index <= n && AllStandalone(parsed.arguments)
    requires TargetCodes(parsed.arguments) == AsSeq(parsed.targetCode) && IsSingleCode(parsed.targetCode)
    ensures TemplatesTargets(Templates(parsed, entry, location, n, index, n)) == Range(index, n)
    decreases n - index
  {
    hide AllStandalone, Template, SlotsTargets;
    if index < n {
      TemplateNamesTargets(parsed.arguments, entry, location, n, index);
      assert [parsed.targetCode.value][1..] == [] && [index] + [] == [index];
      SingleTemplatesNameTargets(parsed, entry, location, n, index + 1);
    }
  }

  lemma {:induction false} ContextTargetsAreNonempty(targets: seq<string>, bytes: nat)
    requires ContextFaultFrom(targets, bytes).None?
    ensures forall i :: 0 <= i < |targets| ==> targets[i] != ""
    decreases |targets|
  {
    if targets != [] {
      ContextTargetsAreNonempty(targets[1..], bytes + |targets[0]|);
      assert targets == [targets[0]] + targets[1..];
    }
  }

  /**
   A successful expansion fills, for each invocation, a template fixed by the Exec value, the entry, the
   desktop-file location and the number of targets; with targets, the templates name each target exactly
   once, in order.
   */
  lemma {:induction false} ExpansionFillsTemplates(entry: ExecEntry, context: ExpansionContext)
    requires ExpandExec(entry, context).Done?
    ensures Parse(entry.exec.value).Done?
    ensures var parsed := Parse(entry.exec.value).value;
            var n := |context.targets|;
            var templates := Templates(parsed, entry, context.location, n, 0, InvocationCount(parsed, context));
            && ExpandExec(entry, context).value == FillEach(templates, context.targets)
            && (n > 0 ==> TemplatesTargets(templates) == Range(0, n))
  {
    var parsed := Parse(entry.exec.value).value;
    ParsedIsWellParsed(entry.exec.value);
    ContextTargetsAreNonempty(context.targets, 0);
    var n, count := |context.targets|, InvocationCount(parsed, context);
    assert NonemptyTargets(context);
    InvocationsFillTemplates(parsed, entry, context, 0, count);
    if n > 0 {
      assert TargetCodes(parsed.arguments) == AsSeq(parsed.targetCode) && parsed.targetCode.Some?;
      hide Parse, Invocations, ContextFault, Template, SlotsTargets, AllStandalone, HasFieldCode, ArgumentsShape,
        NonemptyTargets;
      if IsSingleCode(parsed.targetCode) {
        SingleTemplatesNameTargets(parsed, entry, context.location, n, 0);
      } else {
        assert CodeTargets(parsed.targetCode.value, n, 0) == Range(0, n);
        TemplateNamesTargets(parsed.arguments, entry, context.location, n, 0);
        assert [parsed.targetCode.value][1..] == [];
        var template := Template(parsed.arguments, entry, context.location, n, 0);
        assert Templates(parsed, entry, context.location, n, 1, 1) == [];
        assert [template] + [] == [template] && [template][1..] == [];
        assert Range(0, n) + [] == Range(0, n);
      }
    }
  }

  // ---------------------------------------------------------------- failures that parsing rules out

  lemma {:induction false} NoMultiBuilds(parts: seq<ExecPart>, entry: ExecEntry, context: ExpansionContext,
      index: nat, b: Building)
    requires context.targets != [] ==> index < |context.targets|
    requires NoMulti(parts)
    ensures BuildParts(parts, entry, context, index, b) != Failed(CodeNotStandaloneInExpansion)
    decreases |parts|
  {
    if parts != [] {
      assert !IsMulti(parts[0].fieldCode);
      var first := BuildPart(parts[0], entry, context, index, b);
      if first.Done? {
        NoMultiBuilds(parts[1..], entry, context, index, first.value);
      }
    }
  }

  lemma {:induction false} AppendedAllFaults(argv: seq<string>, arguments: seq<string>)
    ensures AppendedAll(argv, arguments) != Failed(CodeNotStandaloneInExpansion)
    ensures AppendedAll(argv, arguments) != Failed(NoExecutableArgument)
    decreases |arguments|
  {
    if arguments != [] && Appended(argv, arguments[0]).Done? {
      AppendedAllFaults(Appended(argv, arguments[0]).value, arguments[1..]);
    }
  }

  lemma {:induction false} BuildFaults(parts: seq<ExecPart>, entry: ExecEntry, context: ExpansionContext, index: nat,
      b: Building)
    requires context.targets != [] ==> index < |context.targets|
    ensures BuildParts(parts, entry, context, index, b) != Failed(NoExecutableArgument)
    decreases |parts|
  {
    if parts != [] {
      var first := BuildPart(parts[0], entry, context, index, b);
      if first.Done? {
        BuildFaults(parts[1..], entry, context, index, first.value);
      }
    }
  }

  lemma {:induction false} ExpandFaults(argument: ExecArgument, entry: ExecEntry, context: ExpansionContext,
      index: nat, argv: seq<string>)
    requires context.targets != [] ==> index < |context.targets|
    requires Standalone(argument)
    ensures Expand(argument, entry, context, index, argv) != Failed(CodeNotStandaloneInExpansion)
    ensures Expand(argument, entry, context, index, argv) != Failed(NoExecutableArgument)
  {
    if IsStandaloneCode(argument) {
      AppendedAllFaults(argv, context.targets);
      if entry.icon.Some? {
        AppendedAllFaults(argv, ["--icon", entry.icon.value]);
      }
    } else {
      assert NoMulti(argument.parts);
      var start := Building("", true, argument.preserveExplicitEmpty);
      NoMultiBuilds(argument.parts, entry, context, index, start);
      BuildFaults(argument.parts, entry, context, index, start);
    }
  }

  lemma {:induction false} ExpandAllFaults(arguments: seq<ExecArgument>, entry: ExecEntry, context: ExpansionContext,
      index: nat, argv: seq<string>)
    requires context.targets != [] ==> index < |context.targets|
    requires AllStandalone(arguments)
    ensures var r := ExpandAll(arguments, entry, context, index, argv);
      r != Failed(CodeNotStandaloneInExpansion) && r != Failed(NoExecutableArgument) && Extends(argv, r)
    decreases |arguments|
  {
    hide Expand, Standalone;
    if arguments != [] {
      ExpandFaults(arguments[0], entry, context, index, argv);
      var first := Expand(arguments[0], entry, context, index, argv);
      if first.Done? {
        ExpandAllFaults(arguments[1..], entry, context, index, first.value);
      }
    }
  }

  lemma {:induction false} LiteralBuilds(parts: seq<ExecPart>, entry: ExecEntry, context: ExpansionContext,
      index: nat, b: Building)
    requires context.targets != [] ==> index < |context.targets|
    requires forall i :: 0 <= i < |parts| ==> parts[i].fieldCode.None?
    ensures var r := BuildParts(parts, entry, context, index, b);
      r.Done? ==> r.value.expanded == b.expanded + LiteralText(parts)
    decreases |parts|
  {
    if parts == [] {
      assert b.expanded + "" == b.expanded;
    } else {
      var first := BuildPart(parts[0], entry, context, index, b);
      if first.Done? {
        assert first.value.expanded == b.expanded + parts[0].literal;
        LiteralBuilds(parts[1..], entry, context, index, first.value);
        assert b.expanded + parts[0].literal + LiteralText(parts[1..])
               == b.expanded + (parts[0].literal + LiteralText(parts[1..]));
      }
    }
  }

  /** The executable argument is the fixed text of the first Exec argument. */
  lemma {:induction false} ExecutableIsFixed(parsed: ParsedExec, entry: ExecEntry, context: ExpansionContext,
      index: nat)
    requires context.targets != [] ==> index < |context.targets|
    requires WellParsed(parsed)
    ensures var r := ExpandAll(parsed.arguments, entry, context, index, []);
      r.Done? ==> r.value != [] && r.value[0] == LiteralText(parsed.arguments[0].parts) && r.value[0] != ""
  {
    var executable := parsed.arguments[0];
    var text := LiteralText(executable.parts);
    assert !IsStandaloneCode(executable);
    LiteralBuilds(executable.parts, entry, context, index, Building("", true, executable.preserveExplicitEmpty));
    assert "" + text == text && [] + [text] == [text];
    var first := Expand(executable, entry, context, index, []);
    hide BuildParts, AllStandalone, ArgumentsShape, HasFieldCode, LiteralText, TargetCodes;
    assert first.Done? ==> first.value == [text];
    assert first.Done? ==> Extends([text], ExpandAll(parsed.arguments[1..], entry, context, index, [text]));
  }

  lemma {:induction false} InvocationsFaults(parsed: ParsedExec, entry: ExecEntry, context: ExpansionContext,
      index: nat, count: nat)
    requires index <= count && (context.targets != [] ==> count <= |context.targets|)
    requires WellParsed(parsed)
    ensures var r := Invocations(parsed, entry, context, index, count);
      r != Failed(CodeNotStandaloneInExpansion) && r != Failed(NoExecutableArgument)
    decreases count - index
  {
    if index < count {
      ExpandAllFaults(parsed.arguments, entry, context, index, []);
      ExecutableIsFixed(parsed, entry, context, index);
      InvocationsFaults(parsed, entry, context, index + 1, count);
    }
  }

  predicate CheckedAgain(fault: Fault) {
    fault == CodeNotStandaloneInExpansion || fault == NoExecutableArgument
  }

  lemma {:induction false} QuotedFaults(s: string, argument: ExecArgument)
    ensures Quoted(s, argument).Failed? ==> !CheckedAgain(Quoted(s, argument).fault)
    decreases |s|
  {
    hide AppendLiteral;
    if s != "" && s[0] == '\\' && |s| > 1 {
      QuotedFaults(s[2..], AppendLiteral(argument, s[1]));
    } else if |s| > 1 && s[0] == '%' && s[1] == '%' {
      QuotedFaults(s[2..], AppendLiteral(argument, '%'));
    } else if s != "" {
      QuotedFaults(s[1..], AppendLiteral(argument, s[0]));
    }
  }

  lemma {:induction false} UnquotedFaults(s: string, argument: ExecArgument, target: Option<FieldCode>)
    ensures Unquoted(s, argument, target).Failed? ==> !CheckedAgain(Unquoted(s, argument, target).fault)
    decreases |s|
  {
    hide AppendLiteral, AppendFieldCode, IsReservedUnquoted, DecodeFieldCode;
    if |s| > 1 && s[0] == '%' && s[1] == '%' {
      UnquotedFaults(s[2..], AppendLiteral(argument, '%'), target);
    } else if |s| > 1 && s[0] == '%' && DecodeFieldCode(s[1]).Some? {
      var code := DecodeFieldCode(s[1]).value;
      UnquotedFaults(s[2..], AppendFieldCode(argument, code), if IsTargetCode(code) then Some(code) else target);
    } else if s != "" {
      UnquotedFaults(s[1..], AppendLiteral(argument, s[0]), target);
    }
  }

  lemma {:induction false} ArgumentsFaults(s: string, parsed: ParsedExec)
    ensures Arguments(s, parsed).Failed? ==> !CheckedAgain(Arguments(s, parsed).fault)
    decreases |s|
  {
    hide Quoted, Unquoted, SkipSpaces;
    var rest := SkipSpaces(s);
    if rest != "" && rest[0] == '"' {
      var q := Quoted(rest[1..], ExecArgument([], true));
      QuotedFaults(rest[1..], ExecArgument([], true));
      if q.Done? {
        ArgumentsFaults(q.value.1, parsed.(arguments := parsed.arguments + [q.value.0]));
      }
    } else if rest != "" {
      var u := Unquoted(rest, ExecArgument([], false), parsed.targetCode);
      UnquotedFaults(rest, ExecArgument([], false), parsed.targetCode);
      if u.Done? {
        ArgumentsFaults(u.value.1, ParsedExec(parsed.arguments + [u.value.0], u.value.2));
      }
    }
  }

  lemma {:induction false} ContextFaults(targets: seq<string>, bytes: nat)
    ensures ContextFaultFrom(targets, bytes).Some? ==> !CheckedAgain(ContextFaultFrom(targets, bytes).value)
    decreases |targets|
  {
    if targets != [] {
      ContextFaults(targets[1..], bytes + |targets[0]|);
    }
  }

  /** The two checks that expansion repeats after parsing never fail. */
  lemma {:induction false} ParsingRulesOutFaults(entry: ExecEntry, context: ExpansionContext)
    ensures ExpandExec(entry, context) != Failed(CodeNotStandaloneInExpansion)
    ensures ExpandExec(entry, context) != Failed(NoExecutableArgument)
  {
    hide Quoted, Unquoted;
    if entry.exec.Some? {
      var command := entry.exec.value;
      ParsedIsWellParsed(command);
      ArgumentsFaults(command, ParsedExec([], None));
      ContextFaults(context.targets, 0);
      if Parse(command).Done? {
        var parsed := Parse(command).value;
        InvocationsFaults(parsed, entry, context, 0, InvocationCount(parsed, context));
      }
    }
  }
}
