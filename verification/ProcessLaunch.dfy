/**
 Planning a process launch, and the separately written checks with which the launcher receives a plan.

 Every plan that the planner returns passes all of the launcher's value checks.
 */
module ProcessLaunch {
  import opened Foundation

  const MAXIMUM_ARGUMENTS: nat := 256
  const MAXIMUM_ARGUMENT_BYTES: nat := 65536
  const MAXIMUM_ENVIRONMENT_ENTRIES: nat := 4096
  const MAXIMUM_ENVIRONMENT_ENTRY_BYTES: nat := 32768
  const MAXIMUM_ENVIRONMENT_BYTES: nat := 1048576
  const MAXIMUM_ENVELOPE_BYTES: nat := 1048576
  const MAXIMUM_DIRECTORY_BYTES: nat := 4095
  const MAXIMUM_EXECUTABLE_BYTES: nat := 4095
  const POINTER_BYTES: nat := 8
  const PWD := "PWD"

  // ---------------------------------------------------------------- paths

  predicate IsAbsolute(path: string) {
    path != "" && path[0] == '/'
  }

  /** Lexical path operations and executable lookup, which are not part of this model. */
  datatype Paths = Paths(normalize: string -> string, join: (string, string) -> string,
      resolve: string -> Result<string>)

  /**
   What is used of them: normalizing twice is normalizing once; absolute paths stay absolute and no null byte
   appears from nowhere; a resolved executable is a bounded normalized absolute path without null bytes.
   */
  ghost predicate Lawful(p: Paths) {
    && (forall s :: p.normalize(p.normalize(s)) == p.normalize(s))
    && (forall s :: IsAbsolute(s) ==> IsAbsolute(p.normalize(s)))
    && (forall s :: !HasNul(s) ==> !HasNul(p.normalize(s)))
    && (forall a, b :: !HasNul(a) && !HasNul(b) ==> !HasNul(p.join(a, b)))
    && (forall s :: p.resolve(s).Success? ==>
          var path := p.resolve(s).value;
          IsAbsolute(path) && !HasNul(path) && |path| <= MAXIMUM_EXECUTABLE_BYTES && p.normalize(path) == path)
  }

  datatype Terminal = Terminal(executable: string, argumentsBeforeCommand: seq<string>)

  datatype LaunchEntry = LaunchEntry(dbusActivatable: bool, terminal: bool, path: Option<string>)

  datatype Context = Context(defaultDirectory: string, environment: seq<string>, terminal: Option<Terminal>)

  datatype Plan = Plan(executable: string, argv: seq<string>, directory: string, environment: seq<string>)

  // ---------------------------------------------------------------- byte totals

  /** The bytes of some strings, each with its terminator. */
  function Bytes(xs: seq<string>): nat {
    if xs == [] then 0 else Bytes(xs[..|xs| - 1]) + |xs[|xs| - 1]| + 1
  }

  lemma {:induction false} BytesOfMore(xs: seq<string>, i: nat)
    requires i < |xs|
    ensures Bytes(xs[..i + 1]) == Bytes(xs[..i]) + |xs[i]| + 1
  {
    assert xs[..i + 1][..i] == xs[..i];
  }

  lemma {:induction false} BytesGrow(xs: seq<string>, i: nat)
    requires i <= |xs|
    ensures Bytes(xs[..i]) <= Bytes(xs)
    decreases |xs| - i
  {
    if i == |xs| {
      assert xs[..i] == xs;
    } else {
      BytesOfMore(xs, i);
      BytesGrow(xs, i + 1);
    }
  }

  /** The total never passes its limit, so the room that is left is never negative. */
  method AddWithin(total: nat, amount: nat, limit: nat) returns (fits: bool, sum: nat)
    requires total <= limit
    ensures fits <==> total + amount <= limit
    ensures sum == if fits then total + amount else total
  {
    if amount > limit - total {
      return false, total;
    }
    return true, total + amount;
  }

  /** Adding up strings until a limit would be passed. */
  method AddAllWithin(xs: seq<string>, total: nat, limit: nat) returns (fits: bool, sum: nat)
    requires total <= limit
    ensures fits <==> total + Bytes(xs) <= limit
    ensures fits ==> sum == total + Bytes(xs)
  {
    sum := total;
    for i := 0 to |xs|
      invariant sum == total + Bytes(xs[..i]) <= limit
    {
      BytesOfMore(xs, i);
      BytesGrow(xs, i + 1);
      fits, sum := AddWithin(sum, |xs[i]| + 1, limit);
      if !fits {
        return;
      }
    }
    assert xs[..|xs|] == xs;
    fits := true;
  }

  // ---------------------------------------------------------------- environment entries

  /** The position of the first separator, or the length. */
  function Separator(entry: string): (p: nat)
    ensures p <= |entry| && (p < |entry| ==> entry[p] == '=')
    ensures forall i :: 0 <= i < p ==> entry[i] != '='
  {
    if entry == "" || entry[0] == '=' then 0 else 1 + Separator(entry[1..])
  }

  function NameOf(entry: string): string {
    entry[..Separator(entry)]
  }

  predicate WellFormed(entry: string) {
    entry != "" && !HasNul(entry) && 0 < Separator(entry) < |entry|
  }

  function PwdEntry(directory: string): string {
    PWD + "=" + directory
  }

  lemma {:induction false} PwdEntryIsNamed(directory: string)
    ensures Separator(PwdEntry(directory)) == 3 && NameOf(PwdEntry(directory)) == PWD
    ensures PwdEntry(directory)[4..] == directory && |PwdEntry(directory)| == 4 + |directory|
    ensures WellFormed(PwdEntry(directory)) <==> !HasNul(directory)
  {
    var e := PwdEntry(directory);
    assert e[0] == 'P' && e[1] == 'W' && e[2] == 'D' && e[3] == '=';
    assert e[..3] == PWD;
    assert HasNul(e) <==> HasNul(directory) by {
      if HasNul(directory) {
        var i :| 0 <= i < |directory| && directory[i] == '\0';
        assert e[4 + i] == '\0';
      }
    }
  }

  /** The names of some entries. */
  function Names(xs: seq<string>): set<string> {
    set i | 0 <= i < |xs| :: NameOf(xs[i])
  }

  /** Names other than PWD appear once. */
  predicate ExplicitOnce(xs: seq<string>) {
    forall i, j :: 0 <= i < j < |xs| && NameOf(xs[i]) == NameOf(xs[j]) ==> NameOf(xs[i]) == PWD
  }

  predicate DistinctNames(xs: seq<string>) {
    forall i, j :: 0 <= i < j < |xs| ==> NameOf(xs[i]) != NameOf(xs[j])
  }

  // ---------------------------------------------------------------- normalizing the environment

  /** The first fault of the entries from a point on, with the names seen and the bytes counted before it. */
  function EntriesFault(xs: seq<string>, n: nat): Option<ErrorCode>
    requires n <= |xs|
  {
    if n == 0 then None
    else
      var before, entry := EntriesFault(xs, n - 1), xs[n - 1];
      if before.Some? then before
      else if !WellFormed(entry) then Some(InvalidEnvironment)
      else if NameOf(entry) != PWD && NameOf(entry) in Names(xs[..n - 1]) then Some(InvalidEnvironment)
      else if |entry| > MAXIMUM_ENVIRONMENT_ENTRY_BYTES then Some(TooLarge)
      else if Bytes(xs[..n]) > MAXIMUM_ENVIRONMENT_BYTES then Some(TooLarge)
      else None
  }

  /** The entries with every PWD but the first dropped, the first replaced, and one appended if there was none. */
  function Rewritten(xs: seq<string>, pwd: string, n: nat): seq<string>
    requires n <= |xs|
  {
    if n == 0 then []
    else
      var before := Rewritten(xs, pwd, n - 1);
      if NameOf(xs[n - 1]) != PWD then before + [xs[n - 1]]
      else if PWD in Names(xs[..n - 1]) then before
      else before + [pwd]
  }

  function WithPwd(xs: seq<string>, pwd: string): seq<string> {
    var rewritten := Rewritten(xs, pwd, |xs|);
    if PWD in Names(xs) then rewritten else rewritten + [pwd]
  }

  function Normalized(xs: seq<string>, directory: string): Result<seq<string>> {
    if |xs| > MAXIMUM_ENVIRONMENT_ENTRIES then Failure(TooLarge)
    else
      var fault := EntriesFault(xs, |xs|);
      if fault.Some? then Failure(fault.value)
      else if |PwdEntry(directory)| > MAXIMUM_ENVIRONMENT_ENTRY_BYTES then Failure(TooLarge)
      else if |WithPwd(xs, PwdEntry(directory))| > MAXIMUM_ENVIRONMENT_ENTRIES then Failure(TooLarge)
      else if Bytes(WithPwd(xs, PwdEntry(directory))) > MAXIMUM_ENVIRONMENT_BYTES then Failure(TooLarge)
      else Success(WithPwd(xs, PwdEntry(directory)))
  }

  lemma {:induction false} NamesOfMore(xs: seq<string>, n: nat)
    requires n < |xs|
    ensures Names(xs[..n + 1]) == Names(xs[..n]) + {NameOf(xs[n])}
  {
    var more := xs[..n + 1];
    assert more == xs[..n] + [xs[n]];
    forall name ensures name in Names(more) <==> name in Names(xs[..n]) + {NameOf(xs[n])} {
      if i :| 0 <= i < n && NameOf(xs[..n][i]) == name {
        assert NameOf(more[i]) == name;
      }
      assert NameOf(more[n]) == NameOf(xs[n]);
    }
  }

  /** The checks of the input entries, with the set of names and the running total of the source. */
  method CheckEntries(xs: seq<string>) returns (fault: Option<ErrorCode>)
    ensures fault == EntriesFault(xs, |xs|)
  {
    var explicitNames: set<string> := {};
    var inputBytes: nat := 0;
    hide Separator, NameOf, WellFormed;
    for i := 0 to |xs|
      invariant EntriesFault(xs, i).None?
      invariant inputBytes == Bytes(xs[..i]) <= MAXIMUM_ENVIRONMENT_BYTES
      invariant explicitNames == Names(xs[..i]) - {PWD}
    {
      NamesOfMore(xs, i);
      BytesOfMore(xs, i);
      FaultStays(xs, i + 1);
      hide Names, EntriesFault, Bytes;
      var entry := xs[i];
      EntryFault(xs, i);
      if !WellFormed(entry) {
        return Some(InvalidEnvironment);
      }
      var name := NameOf(entry);
      if name != PWD && name in explicitNames {
        return Some(InvalidEnvironment);
      }
      if name != PWD {
        explicitNames := explicitNames + {name};
      }
      if |entry| > MAXIMUM_ENVIRONMENT_ENTRY_BYTES {
        return Some(TooLarge);
      }
      var fits;
      fits, inputBytes := AddWithin(inputBytes, |entry| + 1, MAXIMUM_ENVIRONMENT_BYTES);
      if !fits {
        return Some(TooLarge);
      }
    }
    return None;
  }

  lemma {:induction false} EntryFault(xs: seq<string>, i: nat)
    requires i < |xs| && EntriesFault(xs, i).None?
    ensures EntriesFault(xs, i + 1) ==
      if !WellFormed(xs[i]) then Some(InvalidEnvironment)
      else if NameOf(xs[i]) != PWD && NameOf(xs[i]) in Names(xs[..i]) then Some(InvalidEnvironment)
      else if |xs[i]| > MAXIMUM_ENVIRONMENT_ENTRY_BYTES then Some(TooLarge)
      else if Bytes(xs[..i + 1]) > MAXIMUM_ENVIRONMENT_BYTES then Some(TooLarge)
      else None
  {
  }

  lemma {:induction false} FaultStays(xs: seq<string>, n: nat)
    requires n <= |xs|
    ensures EntriesFault(xs, n).Some? ==> EntriesFault(xs, |xs|) == EntriesFault(xs, n)
    decreases |xs| - n
  {
    if n < |xs| {
      FaultStays(xs, n + 1);
    }
  }

  method NormalizedEnvironment(xs: seq<string>, directory: string) returns (r: Result<seq<string>>)
    ensures r == Normalized(xs, directory)
  {
    if |xs| > MAXIMUM_ENVIRONMENT_ENTRIES {
      return Failure(TooLarge);
    }
    var fault := CheckEntries(xs);
    if fault.Some? {
      return Failure(fault.value);
    }
    var pwdEntry := PwdEntry(directory);
    if |pwdEntry| > MAXIMUM_ENVIRONMENT_ENTRY_BYTES {
      return Failure(TooLarge);
    }
    hide EntriesFault, PwdEntry, NameOf, Names, Bytes;
    var normalized, wrotePwd := RewriteEntries(xs, pwdEntry);
    RewrittenIsShort(xs, pwdEntry, |xs|);
    assert xs[..|xs|] == xs;
    if !wrotePwd {
      if |normalized| >= MAXIMUM_ENVIRONMENT_ENTRIES {
        return Failure(TooLarge);
      }
      normalized := normalized + [pwdEntry];
    }
    var fits, bytes := AddAllWithin(normalized, 0, MAXIMUM_ENVIRONMENT_BYTES);
    if !fits {
      return Failure(TooLarge);
    }
    return Success(normalized);
  }

  method RewriteEntries(xs: seq<string>, pwdEntry: string) returns (normalized: seq<string>, wrotePwd: bool)
    ensures normalized == Rewritten(xs, pwdEntry, |xs|) && (wrotePwd <==> PWD in Names(xs))
  {
    normalized, wrotePwd := [], false;
    assert xs[..|xs|] == xs;
    hide NameOf;
    for i := 0 to |xs|
      invariant normalized == Rewritten(xs, pwdEntry, i) && (wrotePwd <==> PWD in Names(xs[..i]))
    {
      NamesOfMore(xs, i);
      hide Names;
      if NameOf(xs[i]) == PWD {
        if !wrotePwd {
          normalized := normalized + [pwdEntry];
          wrotePwd := true;
        }
        continue;
      }
      normalized := normalized + [xs[i]];
    }
  }

  lemma {:induction false} RewrittenIsShort(xs: seq<string>, pwd: string, n: nat)
    requires n <= |xs|
    ensures |Rewritten(xs, pwd, n)| <= n
  {
    if n > 0 {
      RewrittenIsShort(xs, pwd, n - 1);
    }
  }

  // ---------------------------------------------------------------- what normalizing achieves

  predicate AllWellFormed(xs: seq<string>) {
    forall i :: 0 <= i < |xs| ==> WellFormed(xs[i]) && |xs[i]| <= MAXIMUM_ENVIRONMENT_ENTRY_BYTES
  }

  lemma {:induction false} NoFaultMeans(xs: seq<string>, n: nat)
    requires n <= |xs|
    ensures EntriesFault(xs, n).None? <==>
      AllWellFormed(xs[..n]) && ExplicitOnce(xs[..n]) && Bytes(xs[..n]) <= MAXIMUM_ENVIRONMENT_BYTES
  {
    if n > 0 {
      NoFaultMeans(xs, n - 1);
      BytesOfMore(xs, n - 1);
      assert xs[..n] == xs[..n - 1] + [xs[n - 1]];
      hide WellFormed, NameOf, Bytes;
      OneMoreEntry(xs[..n - 1], xs[n - 1]);
      hide Names, ExplicitOnce, AllWellFormed;
    }
  }

  lemma {:induction false} OneMoreEntry(xs: seq<string>, entry: string)
    ensures ExplicitOnce(xs + [entry]) <==> ExplicitOnce(xs) && (NameOf(entry) == PWD || NameOf(entry) !in Names(xs))
    ensures DistinctNames(xs + [entry]) <==> DistinctNames(xs) && NameOf(entry) !in Names(xs)
    ensures AllWellFormed(xs + [entry])
        <==> AllWellFormed(xs) && WellFormed(entry) && |entry| <= MAXIMUM_ENVIRONMENT_ENTRY_BYTES
    ensures Names(xs + [entry]) == Names(xs) + {NameOf(entry)}
  {
    hide WellFormed, NameOf;
    var more := xs + [entry];
    assert forall i :: 0 <= i < |xs| ==> more[i] == xs[i];
    assert more[|xs|] == entry;
    NamesOfMore(more, |xs|);
    assert more[..|xs|] == xs && more[..|xs| + 1] == more;
  }

  /** Rewriting keeps the explicit names and leaves at most one PWD, the right one. */
  lemma {:induction false} RewrittenIsGood(xs: seq<string>, pwd: string, n: nat)
    requires n <= |xs| && AllWellFormed(xs[..n]) && ExplicitOnce(xs[..n])
    requires WellFormed(pwd) && NameOf(pwd) == PWD && |pwd| <= MAXIMUM_ENVIRONMENT_ENTRY_BYTES
    ensures var r := Rewritten(xs, pwd, n);
      && AllWellFormed(r) && DistinctNames(r) && Names(r) == Names(xs[..n])
      && (forall i :: 0 <= i < |r| && NameOf(r[i]) == PWD ==> r[i] == pwd)
  {
    hide WellFormed, NameOf;
    if n > 0 {
      var front, entry := xs[..n - 1], xs[n - 1];
      assert xs[..n] == front + [entry];
      OneMoreEntry(front, entry);
      RewrittenIsGood(xs, pwd, n - 1);
      var before := Rewritten(xs, pwd, n - 1);
      OneMoreEntry(before, entry);
      OneMoreEntry(before, pwd);
      hide AllWellFormed, DistinctNames, Names, ExplicitOnce;
    }
  }

  /** A normalized environment: unique names, exactly one PWD, and it matches the directory. */
  predicate IsNormalized(xs: seq<string>, directory: string) {
    && |xs| <= MAXIMUM_ENVIRONMENT_ENTRIES && AllWellFormed(xs) && DistinctNames(xs) && PWD in Names(xs)
    && (forall i :: 0 <= i < |xs| && NameOf(xs[i]) == PWD ==> xs[i] == PwdEntry(directory))
    && Bytes(xs) <= MAXIMUM_ENVIRONMENT_BYTES
  }

  lemma {:induction false} NormalizingNormalizes(xs: seq<string>, directory: string)
    requires !HasNul(directory) && Normalized(xs, directory).Success?
    ensures IsNormalized(Normalized(xs, directory).value, directory)
  {
    var pwd := PwdEntry(directory);
    PwdEntryIsNamed(directory);
    NoFaultMeans(xs, |xs|);
    assert xs[..|xs|] == xs;
    hide WellFormed, NameOf, PwdEntry, HasNul, EntriesFault;
    RewrittenIsGood(xs, pwd, |xs|);
    OneMoreEntry(Rewritten(xs, pwd, |xs|), pwd);
    hide AllWellFormed, DistinctNames, Names, ExplicitOnce, Bytes, Rewritten;
  }

  /** A normalized environment is its own normal form for the same directory. */
  lemma {:induction false} NormalizedIsFixed(xs: seq<string>, directory: string)
    requires !HasNul(directory) && IsNormalized(xs, directory)
    requires |PwdEntry(directory)| <= MAXIMUM_ENVIRONMENT_ENTRY_BYTES
    ensures Normalized(xs, directory) == Success(xs)
  {
    NoFaultMeans(xs, |xs|);
    assert xs[..|xs|] == xs;
    RewritingKeeps(xs, directory, |xs|);
    hide WellFormed, NameOf, PwdEntry, HasNul, EntriesFault, Rewritten, Names, AllWellFormed, Bytes;
  }

  lemma {:induction false} RewritingKeeps(xs: seq<string>, directory: string, n: nat)
    requires n <= |xs| && DistinctNames(xs)
    requires forall i :: 0 <= i < |xs| && NameOf(xs[i]) == PWD ==> xs[i] == PwdEntry(directory)
    ensures Rewritten(xs, PwdEntry(directory), n) == xs[..n]
  {
    if n > 0 {
      RewritingKeeps(xs, directory, n - 1);
      assert xs[..n] == xs[..n - 1] + [xs[n - 1]];
      hide NameOf, PwdEntry;
      assert NameOf(xs[n - 1]) !in Names(xs[..n - 1]);
    }
  }

  /** Normalizing what was normalized for the same directory changes nothing. */
  lemma {:induction false} NormalizingTwice(xs: seq<string>, directory: string)
    requires !HasNul(directory) && Normalized(xs, directory).Success?
    ensures Normalized(Normalized(xs, directory).value, directory) == Normalized(xs, directory)
  {
    NormalizingNormalizes(xs, directory);
    NormalizedIsFixed(Normalized(xs, directory).value, directory);
  }

  // ---------------------------------------------------------------- the planner

  function WorkingDirectory(p: Paths, entry: LaunchEntry, context: Context): Result<string> {
    var given := context.defaultDirectory;
    if !IsAbsolute(given) || HasNul(given) then Failure(InvalidArgument)
    else if |given| > MAXIMUM_DIRECTORY_BYTES then Failure(TooLarge)
    else
      var base := p.normalize(given);
      if !IsAbsolute(base) || |base| > MAXIMUM_DIRECTORY_BYTES then Failure(InvalidArgument)
      else if entry.path.None? || entry.path.value == "" then Success(base)
      else if HasNul(entry.path.value) then Failure(InvalidArgument)
      else if |entry.path.value| > MAXIMUM_DIRECTORY_BYTES then Failure(TooLarge)
      else
        var selected := p.normalize(if IsAbsolute(entry.path.value) then entry.path.value
          else p.join(base, entry.path.value));
        if !IsAbsolute(selected) then Failure(InvalidArgument)
        else if |selected| > MAXIMUM_DIRECTORY_BYTES then Failure(TooLarge)
        else Success(selected)
  }

  lemma {:induction false} WorkingDirectoryIsNormalized(p: Paths, entry: LaunchEntry, context: Context)
    requires Lawful(p) && WorkingDirectory(p, entry, context).Success?
    ensures var d := WorkingDirectory(p, entry, context).value;
      IsAbsolute(d) && !HasNul(d) && |d| <= MAXIMUM_DIRECTORY_BYTES && p.normalize(d) == d
  {
    hide HasNul;
    assert !HasNul(p.normalize(context.defaultDirectory));
  }

  function ArgumentFault(argument: string): Option<ErrorCode> {
    if HasNul(argument) then Some(InvalidArgument)
    else if |argument| > MAXIMUM_ARGUMENT_BYTES then Some(TooLarge)
    else None
  }

  predicate AllArgumentsFit(argv: seq<string>) {
    forall i :: 0 <= i < |argv| ==> ArgumentFault(argv[i]).None?
  }

  /** The fault of the first argument that has one. */
  function ArgumentsFault(argv: seq<string>): (r: Option<ErrorCode>)
    ensures r.None? <==> AllArgumentsFit(argv)
  {
    if argv == [] then None
    else if ArgumentFault(argv[0]).Some? then ArgumentFault(argv[0])
    else
      assert forall i :: 0 < i < |argv| ==> argv[i] == argv[1..][i - 1];
      ArgumentsFault(argv[1..])
  }

  method ValidateArguments(argv: seq<string>) returns (fault: Option<ErrorCode>)
    ensures fault == ArgumentsFault(argv)
  {
    hide ArgumentFault;
    for i := 0 to |argv|
      invariant ArgumentsFault(argv) == ArgumentsFault(argv[i..])
    {
      assert argv[i..][1..] == argv[i + 1..];
      fault := ArgumentFault(argv[i]);
      if fault.Some? {
        return;
      }
    }
    return None;
  }

  /** The bytes of a launch: its strings with their terminators, and the two null-ended pointer vectors. */
  function EnvelopeBytes(argv: seq<string>, environment: seq<string>): nat {
    (|argv| + |environment| + 2) * POINTER_BYTES + Bytes(argv) + Bytes(environment)
  }

  predicate EnvelopeFits(plan: Plan) {
    && plan.argv != [] && plan.argv[0] != "" && |plan.argv| <= MAXIMUM_ARGUMENTS && AllArgumentsFit(plan.argv)
    && EnvelopeBytes(plan.argv, plan.environment) <= MAXIMUM_ENVELOPE_BYTES
  }

  method ValidateFinalEnvelope(plan: Plan) returns (fault: Option<ErrorCode>)
    ensures fault.None? <==> EnvelopeFits(plan)
    ensures fault.Some? && AllArgumentsFit(plan.argv) ==> fault.value == TooLarge
  {
    if plan.argv == [] || plan.argv[0] == "" || |plan.argv| > MAXIMUM_ARGUMENTS {
      return Some(TooLarge);
    }
    var pointerCount := |plan.argv| + |plan.environment| + 2;
    var fits, envelope := AddWithin(0, pointerCount * POINTER_BYTES, MAXIMUM_ENVELOPE_BYTES);
    if !fits {
      return Some(TooLarge);
    }
    fault := ValidateArguments(plan.argv);
    if fault.Some? {
      return;
    }
    fits, envelope := AddAllWithin(plan.argv, envelope, MAXIMUM_ENVELOPE_BYTES);
    if !fits {
      return Some(TooLarge);
    }
    fits, envelope := AddAllWithin(plan.environment, envelope, MAXIMUM_ENVELOPE_BYTES);
    return if fits then None else Some(TooLarge);
  }

  /** The inputs are acceptable one by one; only the size of the whole launch is still open. */
  predicate PartsAccepted(p: Paths, entry: LaunchEntry, invocation: seq<string>, context: Context) {
    && !entry.dbusActivatable
    && invocation != [] && invocation[0] != "" && |invocation| <= MAXIMUM_ARGUMENTS && AllArgumentsFit(invocation)
    && WorkingDirectory(p, entry, context).Success?
    && Normalized(context.environment, WorkingDirectory(p, entry, context).value).Success?
    && p.resolve(invocation[0]).Success?
    && (entry.terminal ==>
          && context.terminal.Some?
          && |context.terminal.value.argumentsBeforeCommand| < MAXIMUM_ARGUMENTS
          && AllArgumentsFit(context.terminal.value.argumentsBeforeCommand)
          && p.resolve(context.terminal.value.executable).Success?)
  }

  /** The first fault of the terminal policy. */
  function TerminalFault(p: Paths, terminal: Terminal): Option<ErrorCode> {
    if |terminal.argumentsBeforeCommand| >= MAXIMUM_ARGUMENTS then Some(TooLarge)
    else if ArgumentsFault(terminal.argumentsBeforeCommand).Some? then ArgumentsFault(terminal.argumentsBeforeCommand)
    else Fault(p.resolve(terminal.executable))
  }

  function Fault<T>(r: Result<T>): Option<ErrorCode> {
    if r.Failure? then Some(r.error) else None
  }

  /** The first fault of the parts, in the order in which they are looked at. */
  function PartsFault(p: Paths, entry: LaunchEntry, invocation: seq<string>, context: Context): (r: Option<ErrorCode>)
    ensures r.None? <==> PartsAccepted(p, entry, invocation, context)
  {
    if entry.dbusActivatable || (entry.terminal && context.terminal.None?) then Some(Unsupported)
    else if invocation == [] || invocation[0] == "" then Some(InvalidArgument)
    else if |invocation| > MAXIMUM_ARGUMENTS then Some(TooLarge)
    else if ArgumentsFault(invocation).Some? then ArgumentsFault(invocation)
    else
      var directory := WorkingDirectory(p, entry, context);
      if directory.Failure? then Some(directory.error)
      else if Normalized(context.environment, directory.value).Failure? then
        Fault(Normalized(context.environment, directory.value))
      else if p.resolve(invocation[0]).Failure? then Fault(p.resolve(invocation[0]))
      else if entry.terminal then TerminalFault(p, context.terminal.value)
      else None
  }

  /** The resolved executable with the remaining arguments, behind the terminal prefix if there is one. */
  function CandidatePlan(p: Paths, entry: LaunchEntry, invocation: seq<string>, context: Context): Plan
    requires PartsAccepted(p, entry, invocation, context)
  {
    var directory := WorkingDirectory(p, entry, context).value;
    var environment := Normalized(context.environment, directory).value;
    var application := [p.resolve(invocation[0]).value] + invocation[1..];
    if !entry.terminal then Plan(application[0], application, directory, environment)
    else
      var executable := p.resolve(context.terminal.value.executable).value;
      Plan(executable, [executable] + context.terminal.value.argumentsBeforeCommand + application, directory,
        environment)
  }

  /** Resolved executables are short enough to be arguments, so the parts have no argument that does not fit. */
  lemma {:induction false} CandidateArgumentsFit(p: Paths, entry: LaunchEntry, invocation: seq<string>,
      context: Context)
    requires Lawful(p) && PartsAccepted(p, entry, invocation, context)
    ensures AllArgumentsFit(CandidatePlan(p, entry, invocation, context).argv)
  {
    hide HasNul, Normalized, WorkingDirectory, Lawful, IsAbsolute;
    ResolvedIsBounded(p, invocation[0]);
    if entry.terminal {
      ResolvedIsBounded(p, context.terminal.value.executable);
    }
  }

  predicate Plannable(p: Paths, entry: LaunchEntry, invocation: seq<string>, context: Context) {
    PartsAccepted(p, entry, invocation, context) && EnvelopeFits(CandidatePlan(p, entry, invocation, context))
  }

  /**
   The plan of the parts, or their first fault. Once all parts are acceptable a plan can only be too large,
   and every plan that is made passes the launcher.
   */
  method MakePlan(p: Paths, entry: LaunchEntry, invocation: seq<string>, context: Context) returns (r: Result<Plan>)
    requires Lawful(p)
    ensures !PartsAccepted(p, entry, invocation, context) ==>
      r.Failure? && Some(r.error) == PartsFault(p, entry, invocation, context)
    ensures PartsAccepted(p, entry, invocation, context) && r.Failure? ==> r.error == TooLarge
    ensures r.Success? <==> Plannable(p, entry, invocation, context)
    ensures r.Success? ==> r.value == CandidatePlan(p, entry, invocation, context)
    ensures r.Success? ==> Launchable(p, r.value)
  {
    hide HasNul, Normalized, Bytes, Lawful;
    if entry.dbusActivatable {
      return Failure(Unsupported);
    }
    if entry.terminal && context.terminal.None? {
      return Failure(Unsupported);
    }
    if invocation == [] || invocation[0] == "" {
      return Failure(InvalidArgument);
    }
    if |invocation| > MAXIMUM_ARGUMENTS {
      return Failure(TooLarge);
    }
    var fault := ValidateArguments(invocation);
    if fault.Some? {
      return Failure(fault.value);
    }
    var directory := WorkingDirectory(p, entry, context);
    if directory.Failure? {
      return Failure(directory.error);
    }
    var environment := NormalizedEnvironment(context.environment, directory.value);
    if environment.Failure? {
      return Failure(environment.error);
    }
    var application := p.resolve(invocation[0]);
    if application.Failure? {
      return Failure(application.error);
    }
    var arguments := [application.value] + invocation[1..];
    var plan := Plan(application.value, arguments, directory.value, environment.value);
    if entry.terminal {
      var terminal := context.terminal.value;
      if |terminal.argumentsBeforeCommand| >= MAXIMUM_ARGUMENTS {
        return Failure(TooLarge);
      }
      fault := ValidateArguments(terminal.argumentsBeforeCommand);
      if fault.Some? {
        return Failure(fault.value);
      }
      var executable := p.resolve(terminal.executable);
      if executable.Failure? {
        return Failure(executable.error);
      }
      plan := Plan(executable.value, [executable.value] + terminal.argumentsBeforeCommand + arguments, directory.value,
        environment.value);
    }
    CandidateArgumentsFit(p, entry, invocation, context);
    fault := ValidateFinalEnvelope(plan);
    if fault.Some? {
      return Failure(fault.value);
    }
    WorkingDirectoryIsNormalized(p, entry, context);
    NormalizingNormalizes(context.environment, directory.value);
    ResolvedIsBounded(p, if entry.terminal then context.terminal.value.executable else invocation[0]);
    hide AllArgumentsFit, IsNormalized, EnvelopeBytes, WorkingDirectory;
    return Success(plan);
  }

  lemma {:induction false} ResolvedIsBounded(p: Paths, executable: string)
    requires Lawful(p) && p.resolve(executable).Success?
    ensures var path := p.resolve(executable).value;
      IsAbsolute(path) && !HasNul(path) && |path| <= MAXIMUM_EXECUTABLE_BYTES && p.normalize(path) == path
  {
    hide HasNul, IsAbsolute;
  }

  // ---------------------------------------------------------------- the launcher's checks

  /** What the launcher demands of a plan, apart from the limit on open descriptors. */
  ghost predicate Launchable(p: Paths, plan: Plan) {
    && IsAbsolute(plan.executable) && !HasNul(plan.executable) && p.normalize(plan.executable) == plan.executable
    && |plan.executable| <= MAXIMUM_EXECUTABLE_BYTES
    && IsAbsolute(plan.directory) && !HasNul(plan.directory) && p.normalize(plan.directory) == plan.directory
    && |plan.directory| <= MAXIMUM_DIRECTORY_BYTES
    && plan.argv != [] && plan.argv[0] == plan.executable && |plan.argv| <= MAXIMUM_ARGUMENTS
        && AllArgumentsFit(plan.argv)
    && IsNormalized(plan.environment, plan.directory)
    && EnvelopeBytes(plan.argv, plan.environment) <= MAXIMUM_ENVELOPE_BYTES
  }

  /** The loop over the arguments, which also fills the envelope. */
  method CheckArguments(argv: seq<string>, envelope: nat) returns (fault: Option<ErrorCode>, sum: nat)
    requires envelope <= MAXIMUM_ENVELOPE_BYTES
    ensures fault.None? <==> AllArgumentsFit(argv) && envelope + Bytes(argv) <= MAXIMUM_ENVELOPE_BYTES
    ensures fault.None? ==> sum == envelope + Bytes(argv)
  {
    sum := envelope;
    hide HasNul;
    for i := 0 to |argv|
      invariant forall k :: 0 <= k < i ==> ArgumentFault(argv[k]).None?
      invariant sum == envelope + Bytes(argv[..i]) <= MAXIMUM_ENVELOPE_BYTES
    {
      BytesOfMore(argv, i);
      BytesGrow(argv, i + 1);
      if HasNul(argv[i]) {
        return Some(InvalidArgument), sum;
      }
      if |argv[i]| > MAXIMUM_ARGUMENT_BYTES {
        return Some(TooLarge), sum;
      }
      var fits;
      fits, sum := AddWithin(sum, |argv[i]| + 1, MAXIMUM_ENVELOPE_BYTES);
      if !fits {
        return Some(TooLarge), sum;
      }
    }
    assert argv[..|argv|] == argv;
    fault := None;
  }

  /** An entry named PWD holds the directory. */
  predicate PwdMatches(entry: string, directory: string) {
    NameOf(entry) == PWD ==> Separator(entry) < |entry| && entry[Separator(entry) + 1..] == directory
  }

  predicate AllPwdMatch(xs: seq<string>, directory: string) {
    forall i :: 0 <= i < |xs| ==> PwdMatches(xs[i], directory)
  }

  /** What the loop over the environment has found acceptable so far. */
  predicate AcceptableEntries(xs: seq<string>, directory: string) {
    AllWellFormed(xs) && DistinctNames(xs) && AllPwdMatch(xs, directory)
  }

  lemma {:induction false} AcceptOneMore(xs: seq<string>, entry: string, directory: string)
    ensures AcceptableEntries(xs + [entry], directory) <==>
      && AcceptableEntries(xs, directory)
      && WellFormed(entry) && |entry| <= MAXIMUM_ENVIRONMENT_ENTRY_BYTES && NameOf(entry) !in Names(xs)
      && PwdMatches(entry, directory)
  {
    OneMoreEntry(xs, entry);
    var more := xs + [entry];
    assert forall i :: 0 <= i < |xs| ==> more[i] == xs[i];
    assert more[|xs|] == entry;
    hide WellFormed, NameOf, Names, DistinctNames, AllWellFormed, PwdMatches;
  }

  lemma {:induction false} AcceptablePrefix(xs: seq<string>, n: nat, directory: string)
    requires n <= |xs| && AcceptableEntries(xs, directory)
    ensures AcceptableEntries(xs[..n], directory)
  {
    hide WellFormed, NameOf, Separator, PwdMatches;
  }

  /** The loop over the environment: names, both byte totals and the entries named PWD. */
  method CheckEnvironment(xs: seq<string>, directory: string, envelope: nat) returns (fault: Option<ErrorCode>)
    requires envelope <= MAXIMUM_ENVELOPE_BYTES
    ensures fault.None? <==>
      && AcceptableEntries(xs, directory) && PWD in Names(xs)
      && Bytes(xs) <= MAXIMUM_ENVIRONMENT_BYTES && envelope + Bytes(xs) <= MAXIMUM_ENVELOPE_BYTES
  {
    var names: set<string> := {};
    var environmentBytes: nat, envelopeBytes := 0, envelope;
    var pwdEntries: nat := 0;
    hide WellFormed, NameOf, Separator, AcceptableEntries, Bytes;
    NothingAcceptable(directory);
    for i := 0 to |xs|
      invariant AcceptableEntries(xs[..i], directory) && names == Names(xs[..i])
      invariant pwdEntries == if PWD in names then 1 else 0
      invariant environmentBytes == Bytes(xs[..i]) <= MAXIMUM_ENVIRONMENT_BYTES
      invariant envelopeBytes == envelope + Bytes(xs[..i]) <= MAXIMUM_ENVELOPE_BYTES
    {
      var entry := xs[i];
      EntryIsSeparated(xs, i, directory);
      assert xs[..i + 1] == xs[..i] + [entry];
      if AcceptableEntries(xs, directory) {
        AcceptablePrefix(xs, i + 1, directory);
      }
      NamesOfMore(xs, i);
      BytesOfMore(xs, i);
      BytesGrow(xs, i + 1);
      hide Names;
      if !WellFormed(entry) {
        return Some(InvalidEnvironment);
      }
      var separator := Separator(entry);
      AcceptOneMore(xs[..i], entry, directory);
      if NameOf(entry) in names {
        return Some(InvalidEnvironment);
      }
      names := names + {NameOf(entry)};
      if |entry| > MAXIMUM_ENVIRONMENT_ENTRY_BYTES {
        return Some(TooLarge);
      }
      var fits;
      fits, environmentBytes := AddWithin(environmentBytes, |entry| + 1, MAXIMUM_ENVIRONMENT_BYTES);
      if !fits {
        return Some(TooLarge);
      }
      fits, envelopeBytes := AddWithin(envelopeBytes, |entry| + 1, MAXIMUM_ENVELOPE_BYTES);
      if !fits {
        return Some(TooLarge);
      }
      if NameOf(entry) == PWD {
        pwdEntries := pwdEntries + 1;
        if entry[separator + 1..] != directory {
          return Some(InvalidEnvironment);
        }
      }
    }
    assert xs[..|xs|] == xs;
    return if pwdEntries == 1 then None else Some(InvalidEnvironment);
  }

  lemma {:induction false} NothingAcceptable(directory: string)
    ensures AcceptableEntries([], directory) && Names([]) == {} && Bytes([]) == 0
  {
  }

  lemma {:induction false} EntryIsSeparated(xs: seq<string>, i: nat, directory: string)
    requires i < |xs|
    ensures AcceptableEntries(xs, directory) ==> WellFormed(xs[i])
    ensures WellFormed(xs[i]) ==> Separator(xs[i]) < |xs[i]|
  {
    hide NameOf;
  }

  /** Matching the directory by value is being the PWD entry of the directory. */
  lemma {:induction false} AcceptableIsNormalized(xs: seq<string>, directory: string)
    requires |xs| <= MAXIMUM_ENVIRONMENT_ENTRIES && Bytes(xs) <= MAXIMUM_ENVIRONMENT_BYTES
    ensures AcceptableEntries(xs, directory) && PWD in Names(xs) <==> IsNormalized(xs, directory)
  {
    PwdEntryIsNamed(directory);
    forall i | 0 <= i < |xs| && WellFormed(xs[i]) && NameOf(xs[i]) == PWD
      ensures PwdMatches(xs[i], directory) <==> xs[i] == PwdEntry(directory) {
      NamedPwd(xs[i], directory);
    }
    hide PwdEntry, NameOf, Names, DistinctNames, Bytes;
  }

  lemma {:induction false} NamedPwd(entry: string, directory: string)
    requires WellFormed(entry) && NameOf(entry) == PWD
    ensures entry[Separator(entry) + 1..] == directory <==> entry == PwdEntry(directory)
  {
    PwdEntryIsNamed(directory);
    assert |NameOf(entry)| == Separator(entry) == 3;
    assert entry == NameOf(entry) + [entry[3]] + entry[4..];
  }

  /** The launcher's checks in their own order; they accept exactly the launchable plans. */
  method PrepareLaunch(p: Paths, plan: Plan) returns (fault: Option<ErrorCode>)
    ensures fault.None? <==> Launchable(p, plan)
  {
    hide HasNul, AllArgumentsFit, IsNormalized, AcceptableEntries, Names, Bytes;
    if !IsAbsolute(plan.executable) || HasNul(plan.executable) || p.normalize(plan.executable) != plan.executable {
      return Some(InvalidArgument);
    }
    if |plan.executable| > MAXIMUM_EXECUTABLE_BYTES {
      return Some(TooLarge);
    }
    if !IsAbsolute(plan.directory) || HasNul(plan.directory) || p.normalize(plan.directory) != plan.directory {
      return Some(InvalidArgument);
    }
    if |plan.directory| > MAXIMUM_DIRECTORY_BYTES {
      return Some(TooLarge);
    }
    if plan.argv == [] || plan.argv[0] != plan.executable {
      return Some(InvalidArgument);
    }
    if |plan.argv| > MAXIMUM_ARGUMENTS {
      return Some(TooLarge);
    }
    var pointerEntries := |plan.argv| + |plan.environment| + 2;
    var fits, envelope := AddWithin(0, pointerEntries * POINTER_BYTES, MAXIMUM_ENVELOPE_BYTES);
    if !fits {
      return Some(TooLarge);
    }
    fault, envelope := CheckArguments(plan.argv, envelope);
    if fault.Some? {
      return;
    }
    NormalizedBounds(plan.environment, plan.directory);
    if plan.environment == [] {
      return Some(InvalidEnvironment);
    }
    if |plan.environment| > MAXIMUM_ENVIRONMENT_ENTRIES {
      return Some(TooLarge);
    }
    if Bytes(plan.environment) <= MAXIMUM_ENVIRONMENT_BYTES {
      AcceptableIsNormalized(plan.environment, plan.directory);
    }
    fault := CheckEnvironment(plan.environment, plan.directory, envelope);
  }

  lemma {:induction false} NormalizedBounds(xs: seq<string>, directory: string)
    ensures IsNormalized(xs, directory) ==>
      xs != [] && |xs| <= MAXIMUM_ENVIRONMENT_ENTRIES && Bytes(xs) <= MAXIMUM_ENVIRONMENT_BYTES
  {
  }

  /** Planning and launching together: whatever is planned passes the launcher's checks. */
  method PlanAndPrepare(p: Paths, entry: LaunchEntry, invocation: seq<string>, context: Context)
      returns (plan: Result<Plan>, fault: Option<ErrorCode>)
    requires Lawful(p)
    ensures plan.Success? ==> fault == None
    ensures plan.Failure? ==> fault == Some(plan.error)
  {
    plan := MakePlan(p, entry, invocation, context);
    if plan.Failure? {
      return plan, Some(plan.error);
    }
    fault := PrepareLaunch(p, plan.value);
  }
}
