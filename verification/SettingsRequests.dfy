/**
 What becomes current when the settings engine is asked for something. A successful reload makes the loaded
 configuration current and a successful profile change the named profile, with the theme that the held bundle
 resolves; both fail exactly for the reasons listed. Over any run, the current configuration is therefore what
 the successful requests add up to.
 */
module SettingsRequests {
  import opened Foundation
  import opened SettingsEngine

  /** Safe mode turns the four integrations off and leaves everything else as it was loaded. */
  function InMode(env: Environment, c: Configuration): Configuration {
    if env.safeMode then c.(integration := Integration(false, false, false, false)) else c
  }

  /** The theme resolver has a theme of the right profile for the configuration. */
  predicate Themed(env: Environment, bundle: Bundle, c: Configuration) {
    env.resolve(bundle, c).Success? && env.resolve(bundle, c).value.profile == c.profile
  }

  function WithTheme(env: Environment, bundle: Bundle, c: Configuration, provenance: Provenance,
      warnings: seq<Warning>): Candidate
    requires Themed(env, bundle, c)
  {
    Candidate(c, provenance, env.resolve(bundle, c).value, warnings)
  }

  /** The candidate is current already, or there is a generation for it and it can be serialized. */
  predicate Publishable(env: Environment, s: State, candidate: Candidate) {
    || s.current.candidate == candidate
    || (s.current.generation < U64_MAX && env.serialize(s.current.generation + 1, candidate).Success?)
  }

  /** What a success makes current and answers. */
  predicate BecomesCurrent(env: Environment, s: State, t: State, r: Outcome, candidate: Candidate) {
    && t.current.candidate == candidate && r.snapshot == t.current
    && if s.current.candidate == candidate then
         t.current == s.current && t.previous == s.previous && !r.published && r.changedDomains == []
       else
         && r.published && t.previous == Some(s.current) && t.current.generation == s.current.generation + 1
         && env.serialize(t.current.generation, candidate) == Success(t.current.json)
  }

  lemma {:induction false} PublishingIsExact(env: Environment, s: State, candidate: Candidate, bundle: Bundle)
    requires s.current.generation <= U64_MAX
    ensures var r := Publish(env, Some(s.current), candidate);
      && (r.Success? <==> Publishable(env, s, candidate))
      && (r.Success? ==> r.value.operationWarnings == []
                         && BecomesCurrent(env, s, Commit(s, bundle, r), r.value, candidate))
  {
    hide Changed;
  }

  // ---------------------------------------------------------------- reloads

  predicate CanReload(env: Environment, s: State, loaded: Result<Loaded>, replacement: Result<Bundle>) {
    && loaded.Success? && replacement.Success?
    && var c := InMode(env, loaded.value.configuration);
       && Themed(env, replacement.value, c)
       && Publishable(env, s, WithTheme(env, replacement.value, c, Provenance(loaded.value.source, false), []))
  }

  /**
   A reload succeeds exactly when everything it needs is there; then the loaded configuration is current, with
   the theme that the new bundle resolves, and a published configuration of the user that could not be promoted
   is reported.
   */
  lemma {:induction false} ReloadIsExact(env: Environment, s: State, loaded: Result<Loaded>,
      replacement: Result<Bundle>, promoted: bool)
    requires s.current.generation <= U64_MAX
    ensures var (t, a) := Step(env, s, Reload(loaded, replacement, promoted));
      && a.Publication? && (a.result.Success? <==> CanReload(env, s, loaded, replacement))
      && (a.result.Success? ==>
            var c := InMode(env, loaded.value.configuration);
            var r := a.result.value;
            && t.bundle == replacement.value
            && BecomesCurrent(env, s, t, r,
                 WithTheme(env, replacement.value, c, Provenance(loaded.value.source, false), []))
            && (r.operationWarnings == if r.published && !env.safeMode && loaded.value.source == User && !promoted
                then [LastKnownValidPersistenceFailed] else []))
  {
    if loaded.Success? && replacement.Success? {
      var c := InMode(env, loaded.value.configuration);
      if Themed(env, replacement.value, c) {
        PublishingIsExact(env, s,
          WithTheme(env, replacement.value, c, Provenance(loaded.value.source, false), []), replacement.value);
      }
    }
    hide Publish, Publishable;
  }

  // ---------------------------------------------------------------- profile changes

  predicate IsProfile(id: string, p: Profile) {
    (id == "lustre" && p == Lustre) || (id == "forge" && p == Forge)
  }

  /**
   A change to a named profile succeeds exactly when that profile is current or a candidate with it can be built
   from the held bundle and published; then the configuration is the current one with that profile.
   */
  lemma {:induction false} ProfileChangeIsExact(env: Environment, s: State, id: string, p: Profile)
    requires Coherent(env, s) && IsProfile(id, p)
    ensures var (t, a) := Step(env, s, ChangeProfile(id));
      var held := s.current.candidate;
      var c := held.configuration.(profile := p);
      var provenance := Provenance(held.provenance.source, true);
      && a.Publication?
      && (held.configuration.profile == p ==> t == s && a.result == Success(Outcome(s.current, [], false, [])))
      && (held.configuration.profile != p ==>
            && (a.result.Success? <==>
                  Themed(env, s.bundle, c)
                  && Publishable(env, s, WithTheme(env, s.bundle, c, provenance, held.warnings)))
            && (a.result.Success? ==>
                  && t.bundle == s.bundle && a.result.value.operationWarnings == []
                  && BecomesCurrent(env, s, t, a.result.value,
                       WithTheme(env, s.bundle, c, provenance, held.warnings))))
  {
    var held := s.current.candidate;
    var c := held.configuration.(profile := p);
    if held.configuration.profile != p && Themed(env, s.bundle, c) {
      PublishingIsExact(env, s,
        WithTheme(env, s.bundle, c, Provenance(held.provenance.source, true), held.warnings), s.bundle);
    }
    hide Publish, Publishable;
  }

  lemma {:induction false} OtherProfilesAreRefused(env: Environment, s: State, id: string)
    requires id != "lustre" && id != "forge"
    ensures Step(env, s, ChangeProfile(id)) == (s, Publication(Failure(InvalidArgument)))
  {
  }

  // ---------------------------------------------------------------- what the requests add up to

  /** What was asked for and granted: a configuration, where it came from, its warnings, and a bundle. */
  datatype Wish = Wish(configuration: Configuration, provenance: Provenance, warnings: seq<Warning>, bundle: Bundle)

  function Current(s: State): Wish {
    var held := s.current.candidate;
    Wish(held.configuration, held.provenance, held.warnings, s.bundle)
  }

  /** A request counts when its answer says that it succeeded. */
  function Granted(env: Environment, w: Wish, op: Operation, a: Answer): Wish {
    if !a.Publication? || a.result.Failure? then w
    else
      match op
      case Reload(Success(l), Success(bundle), _) =>
        Wish(InMode(env, l.configuration), Provenance(l.source, false), [], bundle)
      case ChangeProfile(id) =>
        var p := if id == "forge" then Forge else Lustre;
        if w.configuration.profile == p then w
        else w.(configuration := w.configuration.(profile := p), provenance := Provenance(w.provenance.source, true))
      case _ => w
  }

  function GrantedAll(env: Environment, s: State, ops: seq<Operation>, w: Wish): Wish
    decreases |ops|
  {
    if ops == [] then w
    else
      var (t, a) := Step(env, s, ops[0]);
      GrantedAll(env, t, ops[1..], Granted(env, w, ops[0], a))
  }

  lemma {:induction false} StepIsGranted(env: Environment, s: State, op: Operation)
    requires Coherent(env, s)
    ensures var (t, a) := Step(env, s, op); Current(t) == Granted(env, Current(s), op, a)
  {
    match op {
      case Reload(loaded, replacement, promoted) =>
        ReloadIsExact(env, s, loaded, replacement, promoted);
        FailureChangesNothingIfFailed(env, s, op);
      case ChangeProfile(id) =>
        if id == "lustre" || id == "forge" {
          ProfileChangeIsExact(env, s, id, if id == "forge" then Forge else Lustre);
        } else {
          OtherProfilesAreRefused(env, s, id);
        }
        FailureChangesNothingIfFailed(env, s, op);
      case Validate(toml) =>
    }
    hide Publish, Publishable, Changed, ProfileChange, Reloading, Validating, Themed;
  }

  lemma {:induction false} FailureChangesNothingIfFailed(env: Environment, s: State, op: Operation)
    ensures Failing(Step(env, s, op).1) ==> Step(env, s, op).0 == s
  {
    if Failing(Step(env, s, op).1) {
      FailureChangesNothing(env, s, op);
    }
  }

  /**
   After any run the current configuration, its origin and warnings, and the held bundle are what the granted
   requests add up to, and the current theme is what that bundle resolves for that configuration.
   */
  lemma {:induction false} CurrentIsWhatWasGranted(env: Environment, s: State, ops: seq<Operation>)
    requires Coherent(env, s)
    ensures var t, w := Run(env, s, ops), GrantedAll(env, s, ops, Current(s));
      Current(t) == w && env.resolve(w.bundle, w.configuration) == Success(t.current.candidate.theme)
    decreases |ops|
  {
    hide Step, Current, Granted;
    if ops != [] {
      StepKeepsCoherent(env, s, ops[0]);
      StepIsGranted(env, s, ops[0]);
      CurrentIsWhatWasGranted(env, Step(env, s, ops[0]).0, ops[1..]);
    } else {
      NothingGranted(env, s);
    }
  }

  lemma {:induction false} NothingGranted(env: Environment, s: State)
    requires Coherent(env, s)
    ensures env.resolve(Current(s).bundle, Current(s).configuration) == Success(s.current.candidate.theme)
  {
  }

  /** A candidate is valid when it can be read and has a theme, and otherwise the answer names what is wrong. */
  lemma {:induction false} ValidationIsExact(env: Environment, s: State, toml: string)
    ensures var (t, a) := Step(env, s, Validate(toml));
      && t == s && a.Validation? && (a.verdict == Failure(TooLarge) <==> |toml| > 1024 * 1024)
      && (|toml| <= 1024 * 1024 ==>
            match env.parse(toml)
            case Failure(e) => Diagnosed(e, a.verdict)
            case Success(c) =>
              if Themed(env, s.bundle, InMode(env, c)) then a.verdict == Success(None)
              else
                match env.resolve(s.bundle, InMode(env, c))
                case Failure(e) => Diagnosed(e, a.verdict)
                case Success(_) => a.verdict == Success(Some("invalid_configuration")))
  {
  }

  predicate Diagnosed(e: ErrorCode, verdict: Result<Option<string>>) {
    verdict == Success(Some(
      match e
      case SyntaxError => "syntax_error"
      case Unsupported => "unsupported_schema_version"
      case _ => "invalid_configuration"))
  }
}
