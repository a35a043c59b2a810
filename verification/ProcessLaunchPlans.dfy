/**
 What a plan runs, said of the inputs alone: the invocation behind its resolved executable and the terminal's
 arguments, in the directory that the entry asks for, with every variable of the given environment and with PWD
 naming that directory.
 */
module ProcessLaunchPlans {
  import opened Foundation
  import opened ProcessLaunch

  predicate SetsPwd(entry: string) {
    "PWD=" <= entry
  }

  /** The entries that are not about PWD, in order. */
  function Others(xs: seq<string>): seq<string> {
    if xs == [] then []
    else
      var last := xs[|xs| - 1];
      Others(xs[..|xs| - 1]) + if SetsPwd(last) then [] else [last]
  }

  lemma {:induction false} PwdIsNamed(entry: string)
    requires WellFormed(entry)
    ensures NameOf(entry) == PWD <==> SetsPwd(entry)
  {
    if SetsPwd(entry) {
      assert entry[..4] == "PWD=";
      assert entry[0] == 'P' && entry[1] == 'W' && entry[2] == 'D' && entry[3] == '=';
      assert entry[..3] == PWD;
    }
    if NameOf(entry) == PWD {
      assert Separator(entry) == 3 && entry[3] == '=';
      assert entry[..4] == entry[..3] + [entry[3]];
    }
  }

  lemma {:induction false} OthersOfMore(xs: seq<string>, entry: string)
    ensures Others(xs + [entry]) == Others(xs) + if SetsPwd(entry) then [] else [entry]
  {
    assert (xs + [entry])[..|xs|] == xs;
  }

  lemma {:induction false} RewritingKeepsOthers(xs: seq<string>, pwd: string, n: nat)
    requires n <= |xs| && AllWellFormed(xs[..n]) && SetsPwd(pwd)
    ensures Others(Rewritten(xs, pwd, n)) == Others(xs[..n])
    ensures forall e :: e in Rewritten(xs, pwd, n) && SetsPwd(e) ==> e == pwd
    ensures pwd in Rewritten(xs, pwd, n) <==> PWD in Names(xs[..n])
  {
    if n > 0 {
      var before := Rewritten(xs, pwd, n - 1);
      assert xs[..n] == xs[..n - 1] + [xs[n - 1]];
      assert WellFormed(xs[..n][n - 1]);
      assert AllWellFormed(xs[..n - 1]) by {
        assert forall i :: 0 <= i < n - 1 ==> xs[..n - 1][i] == xs[..n][i];
      }
      RewritingKeepsOthers(xs, pwd, n - 1);
      PwdIsNamed(xs[n - 1]);
      OthersOfMore(xs[..n - 1], xs[n - 1]);
      OthersOfMore(before, xs[n - 1]);
      OthersOfMore(before, pwd);
      NamesOfMore(xs, n - 1);
      hide NameOf, WellFormed, Names, AllWellFormed, SetsPwd, Others;
    }
  }

  lemma {:induction false} OthersAre(xs: seq<string>, e: string)
    ensures e in Others(xs) <==> e in xs && !SetsPwd(e)
  {
    hide SetsPwd;
    if xs != [] {
      OthersAre(xs[..|xs| - 1], e);
      assert xs == xs[..|xs| - 1] + [xs[|xs| - 1]];
    }
  }

  /**
   Normalizing keeps every entry that is not about PWD, as it is and in order, and has no others but the one that
   names the directory.
   */
  lemma {:induction false} NormalizingKeepsEntries(xs: seq<string>, directory: string)
    requires Normalized(xs, directory).Success?
    ensures var r := Normalized(xs, directory).value;
      && Others(r) == Others(xs)
      && forall e :: e in r <==> e == "PWD=" + directory || (e in xs && !SetsPwd(e))
  {
    var pwd, rewritten := PwdEntry(directory), Rewritten(xs, PwdEntry(directory), |xs|);
    NoFaultMeans(xs, |xs|);
    assert xs[..|xs|] == xs;
    assert pwd == "PWD=" + directory && SetsPwd(pwd) && SetsPwd("PWD=" + directory);
    RewritingKeepsOthers(xs, pwd, |xs|);
    OthersOfMore(rewritten, pwd);
    var r := Normalized(xs, directory).value;
    hide EntriesFault, Rewritten, Names, AllWellFormed, ExplicitOnce, ProcessLaunch.Bytes, PwdEntry, SetsPwd, Others;
    assert pwd in r;
    forall e ensures e in r <==> e == pwd || (e in xs && !SetsPwd(e)) {
      OthersAre(r, e);
      OthersAre(xs, e);
    }
  }

  // ---------------------------------------------------------------- the plan

  /** The directory of the entry if it names one, an absolute one as it stands and another below the default. */
  lemma {:induction false} EntryChoosesDirectory(p: Paths, entry: LaunchEntry, context: Context)
    requires WorkingDirectory(p, entry, context).Success?
    ensures var d, base := WorkingDirectory(p, entry, context).value, p.normalize(context.defaultDirectory);
      && (entry.path.None? || entry.path.value == "" ==> d == base)
      && (entry.path.Some? && entry.path.value != "" ==>
            d == p.normalize(if '/' == entry.path.value[0] then entry.path.value else p.join(base, entry.path.value)))
  {
  }

  /** An absolute normalized path of acceptable length is the directory, whatever the default. */
  lemma {:induction false} NamedDirectoryIsUsed(p: Paths, entry: LaunchEntry, context: Context)
    requires entry.path.Some? && IsAbsolute(entry.path.value) && p.normalize(entry.path.value) == entry.path.value
    requires !HasNul(entry.path.value) && |entry.path.value| <= MAXIMUM_DIRECTORY_BYTES
    requires WorkingDirectory(p, entry.(path := None), context).Success?
    ensures WorkingDirectory(p, entry, context) == Success(entry.path.value)
  {
  }

  /**
   A plan runs the arguments of the invocation behind its resolved executable, at the end of its vector; before
   them a terminal puts its own executable and arguments. What it runs is the first argument.
   */
  lemma {:induction false} PlanRunsTheInvocation(p: Paths, entry: LaunchEntry, invocation: seq<string>,
      context: Context)
    requires PartsAccepted(p, entry, invocation, context)
    ensures var plan := CandidatePlan(p, entry, invocation, context);
      var before := |plan.argv| - |invocation|;
      && before == (if entry.terminal then 1 + |context.terminal.value.argumentsBeforeCommand| else 0)
      && plan.argv[before + 1..] == invocation[1..]
      && Success(plan.argv[before]) == p.resolve(invocation[0])
      && plan.executable == plan.argv[0]
      && (entry.terminal ==>
            && Success(plan.argv[0]) == p.resolve(context.terminal.value.executable)
            && plan.argv[1..before] == context.terminal.value.argumentsBeforeCommand)
  {
    hide WorkingDirectory, Normalized;
  }

  /** The variables of a plan are those given, with PWD naming the directory of the plan. */
  lemma {:induction false} PlanKeepsTheEnvironment(p: Paths, entry: LaunchEntry, invocation: seq<string>,
      context: Context, e: string)
    requires PartsAccepted(p, entry, invocation, context)
    ensures var plan := CandidatePlan(p, entry, invocation, context);
      && Success(plan.directory) == WorkingDirectory(p, entry, context)
      && Others(plan.environment) == Others(context.environment)
      && (e in plan.environment <==> e == "PWD=" + plan.directory || (e in context.environment && !SetsPwd(e)))
  {
    NormalizingKeepsEntries(context.environment, WorkingDirectory(p, entry, context).value);
    hide WorkingDirectory, Normalized, Others;
  }

  /** An entry of an environment is a name, an equals sign and a value; the name is not empty and has no such sign. */
  lemma {:induction false} WellFormedMeans(entry: string)
    ensures WellFormed(entry)
        <==> '\0' !in entry
             && exists name: string, value: string :: name != "" && '=' !in name && entry == name + "=" + value
  {
    var k := Separator(entry);
    if WellFormed(entry) {
      assert entry == entry[..k] + "=" + entry[k + 1..] && entry[..k] != "" && '=' !in entry[..k];
    }
    if name: string, value: string :| name != "" && '=' !in name && entry == name + "=" + value {
      assert entry[|name|] == '=';
      assert forall i :: 0 <= i < |name| ==> entry[i] == name[i];
      assert k == |name|;
    }
  }

  /** A directory path that can be used: absolute and within the limit. */
  predicate UsableDirectory(path: string) {
    "/" <= path && |path| <= MAXIMUM_DIRECTORY_BYTES
  }

  /**
   A working directory is found exactly when the default one, the one that the entry names, and what normalizing
   makes of them can be used.
   */
  lemma {:induction false} DirectoryIsFoundExactly(p: Paths, entry: LaunchEntry, context: Context)
    ensures var base := p.normalize(context.defaultDirectory);
      WorkingDirectory(p, entry, context).Success? <==>
        && UsableDirectory(context.defaultDirectory) && '\0' !in context.defaultDirectory && UsableDirectory(base)
        && (entry.path.Some? && entry.path.value != "" ==>
              && '\0' !in entry.path.value && |entry.path.value| <= MAXIMUM_DIRECTORY_BYTES
              && UsableDirectory(
                   p.normalize(if "/" <= entry.path.value then entry.path.value else p.join(base, entry.path.value))))
  {
    assert forall path: string :: IsAbsolute(path) <==> "/" <= path;
    hide IsAbsolute;
  }
}
