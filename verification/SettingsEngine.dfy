/**
 The settings engine: complete settings and theme transactions and their publication.

 A class per mutating object of the source, each proved to follow a step function on values; the
 theorems are about that step function and about whole runs of it.
 */
module SettingsEngine {
  import opened Foundation

  datatype Profile = Lustre | Forge
  datatype BlurQuality = BlurOff | BlurLow | BlurBalanced | BlurHigh
  datatype PanelEdge = Top | Right | Bottom | Left
  datatype AutohideMode = AutohideNever | AutohideAlways | AutohideOverlap
  datatype GroupingMode = GroupAlways | GroupWhenFull | GroupNever
  datatype ClockFormat = ClockLocale | Clock12 | Clock24
  datatype LauncherLayout = Compact | Expanded
  datatype SearchProvider = SearchApplications | SearchSettings | SearchRecentFiles
  datatype RecentItemsPolicy = RecentDisabled | RecentLocalOnly
  datatype NotificationHistory = HistoryDisabled | HistorySession | HistoryPersistent
  datatype WallpaperMode = Solid | Center | Fit | FillMode | Stretch | Tile
  datatype FocusEmphasis = Standard | Strong

  datatype Appearance = Appearance(
    accent: string, transparencyEnabled: bool, blurQuality: BlurQuality, reducedMotion: bool, highContrast: bool,
    textScale: real, cursorTheme: string, cursorSizePx: nat, iconTheme: string)
  datatype Panel = Panel(
    edge: PanelEdge, sizePx: nat, autohide: AutohideMode, grouping: GroupingMode, clockFormat: ClockFormat,
    outputs: seq<string>)
  datatype Launcher = Launcher(layout: LauncherLayout, searchProviders: seq<SearchProvider>,
      recentItems: RecentItemsPolicy)
  datatype Notifications = Notifications(enabled: bool, history: NotificationHistory, defaultTimeoutMs: nat,
      doNotDisturb: bool)
  datatype Desktop = Desktop(wallpaperMode: WallpaperMode, iconsEnabled: bool)
  datatype Integration = Integration(exportGtk: bool, exportQt: bool, exportXsettings: bool, exportPortal: bool)
  datatype Accessibility = Accessibility(focusEmphasis: FocusEmphasis, animationScale: real, minimumTargetSizePx: nat)
  datatype Keyboard = Keyboard(menuKeyOpensLauncher: bool, focusWraps: bool)
  datatype Developer = Developer(diagnosticsEnabled: bool, mockCapabilityOverrides: seq<string>)

  datatype Settings = Settings(
    schemaVersion: nat, profile: Profile, appearance: Appearance, panel: Panel, launcher: Launcher,
    notifications: Notifications, desktop: Desktop, integration: Integration, accessibility: Accessibility,
    keyboard: Keyboard, developer: Developer)

  const SUPPORTED_SCHEMA_VERSION: nat := 1

  /** What the parser hands on: it refuses every other schema version, and no operation changes the version. */
  type Configuration = s: Settings | s.schemaVersion == SUPPORTED_SCHEMA_VERSION
    witness Settings(
      SUPPORTED_SCHEMA_VERSION, Lustre, Appearance("", true, BlurBalanced, false, false, 1.0, "", 24, ""),
      Panel(Bottom, 48, AutohideNever, GroupAlways, ClockLocale, []), Launcher(Compact, [], RecentDisabled),
      Notifications(true, HistorySession, 5000, false), Desktop(Solid, true), Integration(false, false, false, false),
      Accessibility(Standard, 1.0, 44), Keyboard(true, true), Developer(false, []))

  /** The four packaged theme documents, and a resolved theme; their contents are not interpreted here. */
  datatype Bundle = Bundle(base: string, lustre: string, forge: string, accessibility: string)
  datatype Theme = Theme(profile: Profile, tokens: string)

  datatype Source = User | LastKnownValid | PackagedDefault
  datatype Warning = InvalidUserConfiguration | InvalidLastKnownValidConfiguration | LastKnownValidPersistenceFailed
  datatype Provenance = Provenance(source: Source, runtimeProfileOverride: bool)
  datatype Candidate = Candidate(configuration: Configuration, provenance: Provenance, theme: Theme,
      warnings: seq<Warning>)
  datatype Snapshot = Snapshot(generation: nat, candidate: Candidate, json: string)
  datatype Loaded = Loaded(configuration: Configuration, source: Source)

  datatype Domain =
    | ProfileDomain | AppearanceDomain | PanelDomain | LauncherDomain | NotificationsDomain | DesktopDomain
    | IntegrationDomain | AccessibilityDomain | KeyboardDomain | DeveloperDomain | ThemeDomain

  datatype Outcome = Outcome(snapshot: Snapshot, changedDomains: seq<Domain>, published: bool,
      operationWarnings: seq<Warning>)

  const NO_INTEGRATION := Integration(false, false, false, false)
  const MAXIMUM_CONFIGURATION_BYTES: nat := 1048576
  const SYNTAX_DIAGNOSTIC := "syntax_error"
  const SCHEMA_DIAGNOSTIC := "unsupported_schema_version"
  const INVALID_DIAGNOSTIC := "invalid_configuration"

  /**
   What the engine is started with: its mode, and the theme resolver, the snapshot serializer and the
   configuration parser as deterministic functions that may fail.
   */
  datatype Environment = Environment(
    safeMode: bool,
    resolve: (Bundle, Configuration) -> Result<Theme>,
    serialize: (nat, Candidate) -> Result<string>,
    parse: string -> Result<Configuration>)

  // ---------------------------------------------------------------- changed domains

  function DomainIndex(d: Domain): nat {
    match d
    case ProfileDomain => 0
    case AppearanceDomain => 1
    case PanelDomain => 2
    case LauncherDomain => 3
    case NotificationsDomain => 4
    case DesktopDomain => 5
    case IntegrationDomain => 6
    case AccessibilityDomain => 7
    case KeyboardDomain => 8
    case DeveloperDomain => 9
    case ThemeDomain => 10
  }

  predicate Differs(a: Candidate, b: Candidate, d: Domain) {
    var before, after := a.configuration, b.configuration;
    match d
    case ProfileDomain => before.profile != after.profile
    case AppearanceDomain => before.appearance != after.appearance
    case PanelDomain => before.panel != after.panel
    case LauncherDomain => before.launcher != after.launcher
    case NotificationsDomain => before.notifications != after.notifications
    case DesktopDomain => before.desktop != after.desktop
    case IntegrationDomain => before.integration != after.integration
    case AccessibilityDomain => before.accessibility != after.accessibility
    case KeyboardDomain => before.keyboard != after.keyboard
    case DeveloperDomain => before.developer != after.developer
    case ThemeDomain => a.theme != b.theme
  }

  const ALL_DOMAINS: seq<Domain> := [
    ProfileDomain, AppearanceDomain, PanelDomain, LauncherDomain, NotificationsDomain, DesktopDomain,
    IntegrationDomain, AccessibilityDomain, KeyboardDomain, DeveloperDomain, ThemeDomain]

  const DOMAIN_COUNT: nat := 11

  function DomainAt(i: nat): Domain
    requires i < DOMAIN_COUNT
  {
    ALL_DOMAINS[i]
  }

  /** The first n domains in which two candidates differ, in the published order. */
  function ChangedUpTo(a: Candidate, b: Candidate, n: nat): seq<Domain>
    requires n <= DOMAIN_COUNT
  {
    if n == 0 then []
    else
      var before := ChangedUpTo(a, b, n - 1);
      if Differs(a, b, DomainAt(n - 1)) then before + [DomainAt(n - 1)] else before
  }

  function Changed(a: Candidate, b: Candidate): seq<Domain> {
    ChangedUpTo(a, b, DOMAIN_COUNT)
  }

  /** One of the tests of the source, noting the domain when its values differ. */
  method NoteIf(ghost a: Candidate, ghost b: Candidate, before: seq<Domain>, differs: bool, d: Domain, ghost n: nat)
      returns (noted: seq<Domain>)
    requires n < DOMAIN_COUNT && DomainIndex(d) == n
    requires differs == Differs(a, b, d)
    requires before == ChangedUpTo(a, b, n)
    ensures noted == ChangedUpTo(a, b, n + 1)
  {
    IndexNamesDomain(d, n);
    noted := before;
    if differs {
      noted := noted + [d];
    }
  }

  method ChangedDomains(a: Candidate, b: Candidate) returns (changed: seq<Domain>)
    ensures changed == Changed(a, b)
  {
    changed := [];
    assert ChangedUpTo(a, b, 0) == [];
    hide ChangedUpTo, DomainAt;
    changed := NoteIf(a, b, changed, a.configuration.profile != b.configuration.profile, ProfileDomain, 0);
    changed := NoteIf(a, b, changed, a.configuration.appearance != b.configuration.appearance, AppearanceDomain, 1);
    changed := NoteIf(a, b, changed, a.configuration.panel != b.configuration.panel, PanelDomain, 2);
    changed := NoteIf(a, b, changed, a.configuration.launcher != b.configuration.launcher, LauncherDomain, 3);
    changed := NoteIf(a, b, changed, a.configuration.notifications != b.configuration.notifications,
      NotificationsDomain, 4);
    changed := RemainingChangedDomains(a, b, changed);
  }

  /** The second half of the tests, kept apart to keep the proof small. */
  method RemainingChangedDomains(a: Candidate, b: Candidate, before: seq<Domain>) returns (changed: seq<Domain>)
    requires before == ChangedUpTo(a, b, 5)
    ensures changed == Changed(a, b)
  {
    changed := before;
    hide ChangedUpTo, DomainAt;
    changed := NoteIf(a, b, changed, a.configuration.desktop != b.configuration.desktop, DesktopDomain, 5);
    changed := NoteIf(a, b, changed, a.configuration.integration != b.configuration.integration, IntegrationDomain, 6);
    changed := NoteIf(a, b, changed, a.configuration.accessibility != b.configuration.accessibility,
      AccessibilityDomain, 7);
    changed := NoteIf(a, b, changed, a.configuration.keyboard != b.configuration.keyboard, KeyboardDomain, 8);
    changed := NoteIf(a, b, changed, a.configuration.developer != b.configuration.developer, DeveloperDomain, 9);
    changed := NoteIf(a, b, changed, a.theme != b.theme, ThemeDomain, 10);
  }

  /** A configuration and theme with one domain taken from a candidate. */
  function CopyDomain(c: Configuration, t: Theme, b: Candidate, d: Domain): (Configuration, Theme) {
    var from := b.configuration;
    match d
    case ProfileDomain => (c.(profile := from.profile), t)
    case AppearanceDomain => (c.(appearance := from.appearance), t)
    case PanelDomain => (c.(panel := from.panel), t)
    case LauncherDomain => (c.(launcher := from.launcher), t)
    case NotificationsDomain => (c.(notifications := from.notifications), t)
    case DesktopDomain => (c.(desktop := from.desktop), t)
    case IntegrationDomain => (c.(integration := from.integration), t)
    case AccessibilityDomain => (c.(accessibility := from.accessibility), t)
    case KeyboardDomain => (c.(keyboard := from.keyboard), t)
    case DeveloperDomain => (c.(developer := from.developer), t)
    case ThemeDomain => (c, b.theme)
  }

  function Held(a: Candidate): (Configuration, Theme) {
    (a.configuration, a.theme)
  }

  /** What a client holds after taking the listed domains of b into what it held. */
  function CopyDomains(held: (Configuration, Theme), b: Candidate, domains: seq<Domain>): (Configuration, Theme)
    decreases |domains|
  {
    if domains == [] then held
    else
      var (c, t) := CopyDomains(held, b, domains[..|domains| - 1]);
      CopyDomain(c, t, b, domains[|domains| - 1])
  }

  lemma {:induction false} ChangedExactly(a: Candidate, b: Candidate, n: nat)
    requires n <= DOMAIN_COUNT
    ensures forall d :: d in ChangedUpTo(a, b, n) <==> DomainIndex(d) < n && Differs(a, b, d)
    ensures forall i, j :: 0 <= i < j < |ChangedUpTo(a, b, n)| ==>
              DomainIndex(ChangedUpTo(a, b, n)[i]) < DomainIndex(ChangedUpTo(a, b, n)[j])
  {
    if n > 0 {
      ChangedExactly(a, b, n - 1);
      IndexNamesDomain(DomainAt(n - 1), n - 1);
      forall d | DomainIndex(d) == n - 1 ensures d == DomainAt(n - 1) {
        IndexNamesDomain(d, n - 1);
      }
      hide Differs, DomainIndex;
      var rest := ChangedUpTo(a, b, n - 1);
      assert forall i :: 0 <= i < |rest| ==> rest[i] in rest;
    }
  }

  lemma {:induction false} IndexNamesDomain(d: Domain, i: nat)
    requires i < DOMAIN_COUNT
    ensures DomainIndex(d) == i <==> d == DomainAt(i)
  {
  }

  lemma {:induction false} CopyingSkipsEqualDomains(a: Candidate, b: Candidate, n: nat)
    requires n <= DOMAIN_COUNT
    ensures CopyDomains(Held(a), b, ChangedUpTo(a, b, n)) == CopyDomains(Held(a), b, ALL_DOMAINS[..n])
  {
    if n > 0 {
      CopyingSkipsEqualDomains(a, b, n - 1);
      var d, before := DomainAt(n - 1), ChangedUpTo(a, b, n - 1);
      assert ALL_DOMAINS[..n][..n - 1] == ALL_DOMAINS[..n - 1];
      CopiedUpTo(a, b, n - 1);
      if Differs(a, b, d) {
        assert (before + [d])[..|before|] == before;
      }
    }
  }

  /** Copying the first n domains leaves the others as they were. */
  lemma {:induction false} CopiedUpTo(a: Candidate, b: Candidate, n: nat)
    requires n <= DOMAIN_COUNT
    ensures var (c, t) := CopyDomains(Held(a), b, ALL_DOMAINS[..n]);
            c == Settings(
              SUPPORTED_SCHEMA_VERSION,
              if n > 0 then b.configuration.profile else a.configuration.profile,
              if n > 1 then b.configuration.appearance else a.configuration.appearance,
              if n > 2 then b.configuration.panel else a.configuration.panel,
              if n > 3 then b.configuration.launcher else a.configuration.launcher,
              if n > 4 then b.configuration.notifications else a.configuration.notifications,
              if n > 5 then b.configuration.desktop else a.configuration.desktop,
              if n > 6 then b.configuration.integration else a.configuration.integration,
              if n > 7 then b.configuration.accessibility else a.configuration.accessibility,
              if n > 8 then b.configuration.keyboard else a.configuration.keyboard,
              if n > 9 then b.configuration.developer else a.configuration.developer)
            && t == if n > 10 then b.theme else a.theme
  {
    if n > 0 {
      CopiedUpTo(a, b, n - 1);
      assert ALL_DOMAINS[..n][..n - 1] == ALL_DOMAINS[..n - 1];
    }
  }

  /**
   The changed domains are exactly those that differ, in order, and copying them reproduces the new
   configuration and theme.
   */
  lemma {:induction false} ChangedDomainsSuffice(a: Candidate, b: Candidate)
    ensures forall d :: d in Changed(a, b) <==> Differs(a, b, d)
    ensures forall i, j ::
      0 <= i < j < |Changed(a, b)| ==> DomainIndex(Changed(a, b)[i]) < DomainIndex(Changed(a, b)[j])
    ensures CopyDomains(Held(a), b, Changed(a, b)) == Held(b)
  {
    ChangedExactly(a, b, DOMAIN_COUNT);
    CopyingSkipsEqualDomains(a, b, DOMAIN_COUNT);
    CopiedUpTo(a, b, DOMAIN_COUNT);
    assert ALL_DOMAINS[..|ALL_DOMAINS|] == ALL_DOMAINS;
  }

  /** A publication that names no domain changed at most provenance or warnings. */
  lemma {:induction false} NoChangedDomain(a: Candidate, b: Candidate)
    ensures Changed(a, b) == [] <==> b.configuration == a.configuration && b.theme == a.theme
  {
    ChangedDomainsSuffice(a, b);
    if Changed(a, b) != [] {
      assert Changed(a, b)[0] in Changed(a, b);
    }
  }

  // ---------------------------------------------------------------- one publication, on values

  /** The generation after the current one, or the first. */
  function NextGeneration(current: Option<Snapshot>): Result<nat> {
    if current.None? then Success(1)
    else if current.value.generation >= U64_MAX then Failure(TooLarge)
    else Success(current.value.generation + 1)
  }

  function Publish(env: Environment, current: Option<Snapshot>, candidate: Candidate): Result<Outcome> {
    if current.Some? && current.value.candidate == candidate then Success(Outcome(current.value, [], false, []))
    else
      match NextGeneration(current)
      case Failure(e) => Failure(e)
      case Success(generation) =>
        match env.serialize(generation, candidate)
        case Failure(e) => Failure(e)
        case Success(json) =>
          var domains := if current.Some? then Changed(current.value.candidate, candidate) else ALL_DOMAINS;
          Success(Outcome(Snapshot(generation, candidate, json), domains, true, []))
  }

  function Effective(env: Environment, configuration: Configuration): Configuration {
    if env.safeMode then configuration.(integration := NO_INTEGRATION) else configuration
  }

  function Build(env: Environment, bundle: Bundle, configuration: Configuration, provenance: Provenance,
      warnings: seq<Warning>)
      : Result<Candidate>
  {
    var effective := Effective(env, configuration);
    match env.resolve(bundle, effective)
    case Failure(e) => Failure(e)
    case Success(theme) =>
      if theme.profile != effective.profile then Failure(ValidationError)
      else Success(Candidate(effective, provenance, theme, warnings))
  }

  // ---------------------------------------------------------------- the publication state

  class PublicationState {
    var current: Option<Snapshot>
    var previous: Option<Snapshot>

    constructor ()
      ensures current == None && previous == None
    {
      current, previous := None, None;
    }

    method PublishCandidate(env: Environment, candidate: Candidate) returns (r: Result<Outcome>)
      modifies this
      ensures r == Publish(env, old(current), candidate)
      ensures r.Success? && r.value.published ==> current == Some(r.value.snapshot) && previous == old(current)
      ensures !(r.Success? && r.value.published) ==> current == old(current) && previous == old(previous)
    {
      if current.Some? && current.value.candidate == candidate {
        return Success(Outcome(current.value, [], false, []));
      }
      var generation := NextGeneration(current);
      if generation.Failure? {
        return Failure(generation.error);
      }
      var domains := ALL_DOMAINS;
      if current.Some? {
        domains := ChangedDomains(current.value.candidate, candidate);
      }
      var serialized := env.serialize(generation.value, candidate);
      if serialized.Failure? {
        return Failure(serialized.error);
      }
      previous := current;
      current := Some(Snapshot(generation.value, candidate, serialized.value));
      return Success(Outcome(current.value, domains, true, []));
    }
  }

  // ---------------------------------------------------------------- engine operations, on values

  datatype State = State(bundle: Bundle, current: Snapshot, previous: Option<Snapshot>)

  /**
   What an operation reads from outside: the loader's and the packaged bundle's answers, and whether
   promotion worked.
   */
  datatype Operation =
    | ChangeProfile(profile: string)
    | Reload(loaded: Result<Loaded>, replacement: Result<Bundle>, promoted: bool)
    | Validate(toml: string)

  datatype Answer = Publication(result: Result<Outcome>) | Validation(verdict: Result<Option<string>>)

  function ParseProfile(id: string): Option<Profile> {
    if id == "lustre" then Some(Lustre) else if id == "forge" then Some(Forge) else None
  }

  function Commit(s: State, bundle: Bundle, r: Result<Outcome>): State {
    if r.Failure? then s
    else if r.value.published then State(bundle, r.value.snapshot, Some(s.current))
    else s.(bundle := bundle)
  }

  function ProfileChange(env: Environment, s: State, id: string): Result<Outcome> {
    match ParseProfile(id)
    case None => Failure(InvalidArgument)
    case Some(requested) =>
      var held := s.current.candidate;
      if held.configuration.profile == requested then Success(Outcome(s.current, [], false, []))
      else
        match Build(env, s.bundle, held.configuration.(profile := requested), Provenance(held.provenance.source, true),
          held.warnings)
        case Failure(e) => Failure(e)
        case Success(candidate) => Publish(env, Some(s.current), candidate)
  }

  function Reloading(env: Environment, s: State, loaded: Result<Loaded>, replacement: Result<Bundle>): Result<Outcome> {
    match loaded
    case Failure(e) => Failure(e)
    case Success(l) =>
      match replacement
      case Failure(e) => Failure(e)
      case Success(bundle) =>
        match Build(env, bundle, l.configuration, Provenance(l.source, false), [])
        case Failure(e) => Failure(e)
        case Success(candidate) => Publish(env, Some(s.current), candidate)
  }

  /** A reload from the user file whose promotion failed carries a warning; nothing is rolled back. */
  function WithPromotion(env: Environment, loaded: Result<Loaded>, promoted: bool,
      r: Result<Outcome>): Result<Outcome> {
    if r.Success? && r.value.published && !env.safeMode && loaded.Success? && loaded.value.source == User && !promoted
    then Success(r.value.(operationWarnings := r.value.operationWarnings + [LastKnownValidPersistenceFailed]))
    else r
  }

  function Diagnostic(error: ErrorCode): string {
    if error == SyntaxError then SYNTAX_DIAGNOSTIC
    else if error == Unsupported then SCHEMA_DIAGNOSTIC
    else INVALID_DIAGNOSTIC
  }

  function Validating(env: Environment, s: State, toml: string): Result<Option<string>> {
    if |toml| > MAXIMUM_CONFIGURATION_BYTES then Failure(TooLarge)
    else
      match env.parse(toml)
      case Failure(e) => Success(Some(Diagnostic(e)))
      case Success(configuration) =>
        match Build(env, s.bundle, configuration, Provenance(User, false), [])
        case Failure(e) => Success(Some(Diagnostic(e)))
        case Success(_) => Success(None)
  }

  function Step(env: Environment, s: State, op: Operation): (State, Answer) {
    match op
    case ChangeProfile(id) =>
      var r := ProfileChange(env, s, id);
      (Commit(s, s.bundle, r), Publication(r))
    case Reload(loaded, replacement, promoted) =>
      var r := Reloading(env, s, loaded, replacement);
      (if replacement.Success? then Commit(s, replacement.value, r) else s,
       Publication(WithPromotion(env, loaded, promoted, r)))
    case Validate(toml) => (s, Validation(Validating(env, s, toml)))
  }

  function Run(env: Environment, s: State, ops: seq<Operation>): State
    decreases |ops|
  {
    if ops == [] then s else Run(env, Step(env, s, ops[0]).0, ops[1..])
  }

  // ---------------------------------------------------------------- the engine

  class Engine {
    const env: Environment
    const publications: PublicationState
    var bundle: Bundle

    ghost predicate Started()
      reads this, publications
    {
      publications.current.Some?
    }

    ghost function Abstract(): State
      requires Started()
      reads this, publications
    {
      State(bundle, publications.current.value, publications.previous)
    }

    constructor (env: Environment, bundle: Bundle)
      ensures this.env == env && this.bundle == bundle && fresh(publications)
      ensures publications.current == None && publications.previous == None
    {
      this.env := env;
      this.bundle := bundle;
      publications := new PublicationState();
    }

    method BuildCandidate(configuration: Configuration, provenance: Provenance, warnings: seq<Warning>)
        returns (r: Result<Candidate>)
      ensures r == Build(env, bundle, configuration, provenance, warnings)
    {
      var effective := configuration;
      if env.safeMode {
        effective := configuration.(integration := NO_INTEGRATION);
      }
      var resolved := env.resolve(bundle, effective);
      if resolved.Failure? {
        return Failure(resolved.error);
      }
      if resolved.value.profile != effective.profile {
        return Failure(ValidationError);
      }
      return Success(Candidate(effective, provenance, resolved.value, warnings));
    }

    method RequestProfileChange(id: string) returns (r: Result<Outcome>)
      requires Started()
      modifies this, publications
      ensures Started() && (Abstract(), Publication(r)) == Step(env, old(Abstract()), ChangeProfile(id))
    {
      var requested := ParseProfile(id);
      if requested.None? {
        return Failure(InvalidArgument);
      }
      var held := publications.current.value;
      if held.candidate.configuration.profile == requested.value {
        return Success(Outcome(held, [], false, []));
      }
      var candidate := BuildCandidate(
        held.candidate.configuration.(profile := requested.value),
        Provenance(held.candidate.provenance.source, true), held.candidate.warnings);
      if candidate.Failure? {
        return Failure(candidate.error);
      }
      r := publications.PublishCandidate(env, candidate.value);
    }

    method ReloadConfiguration(loaded: Result<Loaded>, replacement: Result<Bundle>,
        promoted: bool) returns (r: Result<Outcome>)
      requires Started()
      modifies this, publications
      ensures Started()
      ensures (Abstract(), Publication(r)) == Step(env, old(Abstract()), Reload(loaded, replacement, promoted))
    {
      if loaded.Failure? {
        return Failure(loaded.error);
      }
      if replacement.Failure? {
        return Failure(replacement.error);
      }
      var previousBundle := bundle;
      bundle := replacement.value;
      var candidate := BuildCandidate(loaded.value.configuration, Provenance(loaded.value.source, false), []);
      if candidate.Failure? {
        bundle := previousBundle;
        return Failure(candidate.error);
      }
      r := publications.PublishCandidate(env, candidate.value);
      if r.Failure? {
        bundle := previousBundle;
        return;
      }
      if !env.safeMode && r.value.published && loaded.value.source == User {
        if !promoted {
          r := Success(r.value.(operationWarnings := r.value.operationWarnings + [LastKnownValidPersistenceFailed]));
        }
      }
    }

    method ValidateCandidate(toml: string) returns (r: Result<Option<string>>)
      requires Started()
      ensures (Abstract(), Validation(r)) == Step(env, Abstract(), Validate(toml))
    {
      if |toml| > MAXIMUM_CONFIGURATION_BYTES {
        return Failure(TooLarge);
      }
      var parsed := env.parse(toml);
      if parsed.Failure? {
        return Success(Some(Diagnostic(parsed.error)));
      }
      var candidate := BuildCandidate(parsed.value, Provenance(User, false), []);
      if candidate.Failure? {
        return Success(Some(Diagnostic(candidate.error)));
      }
      return Success(None);
    }
  }

  /** The first publication, or the first error on the way to it. */
  function Starting(env: Environment, packaged: Result<Bundle>, startup: Result<Loaded>,
      warnings: seq<Warning>): Result<Outcome> {
    match packaged
    case Failure(e) => Failure(e)
    case Success(bundle) =>
      match startup
      case Failure(e) => Failure(e)
      case Success(l) =>
        match Build(env, bundle, l.configuration, Provenance(l.source, false), warnings)
        case Failure(e) => Failure(e)
        case Success(candidate) => Publish(env, None, candidate)
  }

  /** The engine, or the error that kept it from starting; the loader's answers are inputs. */
  method Start(env: Environment, packaged: Result<Bundle>, startup: Result<Loaded>, warnings: seq<Warning>)
      returns (engine: Engine?, error: Option<ErrorCode>)
    ensures (engine == null <==> error.Some?) && (error.Some? <==> Starting(env, packaged, startup, warnings).Failure?)
    ensures error.Some? ==> Starting(env, packaged, startup, warnings) == Failure(error.value)
    ensures engine != null ==>
      && fresh(engine) && engine.env == env && engine.Started()
      && Coherent(env, engine.Abstract())
      && packaged == Success(engine.bundle) && startup.Success?
      && engine.publications.previous == None && engine.publications.current.value.generation == 1
      && engine.publications.current.value.candidate.provenance == Provenance(startup.value.source, false)
      && engine.publications.current.value.candidate.configuration == Effective(env, startup.value.configuration)
      && engine.publications.current.value.candidate.warnings == warnings
  {
    if packaged.Failure? {
      return null, Some(packaged.error);
    }
    if startup.Failure? {
      return null, Some(startup.error);
    }
    var started := new Engine(env, packaged.value);
    var candidate := started.BuildCandidate(startup.value.configuration, Provenance(startup.value.source, false),
      warnings);
    if candidate.Failure? {
      return null, Some(candidate.error);
    }
    var publication := started.publications.PublishCandidate(env, candidate.value);
    if publication.Failure? {
      return null, Some(publication.error);
    }
    return started, None;
  }

  // ---------------------------------------------------------------- what every run keeps

  /**
   The current snapshot is what the held bundle, the environment and its own configuration determine; in
   safe mode no integration is on; the previous snapshot is the one published just before.
   */
  ghost predicate Coherent(env: Environment, s: State) {
    var held := s.current.candidate;
    && env.resolve(s.bundle, held.configuration) == Success(held.theme)
    && held.theme.profile == held.configuration.profile
    && (env.safeMode ==> held.configuration.integration == NO_INTEGRATION)
    && env.serialize(s.current.generation, held) == Success(s.current.json)
    && 1 <= s.current.generation <= U64_MAX
    && match s.previous
       case None => s.current.generation == 1
       case Some(p) => p.generation + 1 == s.current.generation && p.candidate != held
  }

  lemma {:induction false} StepKeepsCoherent(env: Environment, s: State, op: Operation)
    requires Coherent(env, s)
    ensures Coherent(env, Step(env, s, op).0)
  {
    hide Changed;
  }

  lemma {:induction false} RunKeepsCoherent(env: Environment, s: State, ops: seq<Operation>)
    requires Coherent(env, s)
    ensures Coherent(env, Run(env, s, ops))
    decreases |ops|
  {
    hide Coherent, Step;
    if ops != [] {
      StepKeepsCoherent(env, s, ops[0]);
      RunKeepsCoherent(env, Step(env, s, ops[0]).0, ops[1..]);
    }
  }

  predicate Published(a: Answer) {
    a.Publication? && a.result.Success? && a.result.value.published
  }

  predicate Failing(a: Answer) {
    a.Publication? && a.result.Failure?
  }

  /** A failed reload or profile change, and any validation, leaves bundle, current and previous as they were. */
  lemma {:induction false} FailureChangesNothing(env: Environment, s: State, op: Operation)
    requires Failing(Step(env, s, op).1) || op.Validate?
    ensures Step(env, s, op).0 == s
  {
    hide Changed;
  }

  /** A publication takes the next generation; anything else keeps the current snapshot. */
  lemma {:induction false} GenerationsAdvanceByPublishing(env: Environment, s: State, op: Operation)
    ensures var (t, answer) := Step(env, s, op);
      if Published(answer) then
        && t.current == answer.result.value.snapshot && t.previous == Some(s.current)
        && t.current.generation == s.current.generation + 1
        && t.current.candidate != s.current.candidate
        && answer.result.value.changedDomains == Changed(s.current.candidate, t.current.candidate)
      else t.current == s.current && t.previous == s.previous
  {
    hide Changed;
  }

  function Publications(env: Environment, s: State, ops: seq<Operation>): nat
    decreases |ops|
  {
    if ops == [] then 0
    else (if Published(Step(env, s, ops[0]).1) then 1 else 0) + Publications(env, Step(env, s, ops[0]).0, ops[1..])
  }

  /** Over any run the generation counts the publications, so it never wraps. */
  lemma {:induction false} RunCountsPublications(env: Environment, s: State, ops: seq<Operation>)
    requires Coherent(env, s)
    ensures Run(env, s, ops).current.generation == s.current.generation + Publications(env, s, ops) <= U64_MAX
    decreases |ops|
  {
    hide Step;
    if ops != [] {
      GenerationsAdvanceByPublishing(env, s, ops[0]);
      StepKeepsCoherent(env, s, ops[0]);
      RunCountsPublications(env, Step(env, s, ops[0]).0, ops[1..]);
    }
  }

  /** A client that holds a configuration and theme and takes from each publication only the domains it names. */
  function Followed(env: Environment, s: State, ops: seq<Operation>, held: (Configuration, Theme))
    : (Configuration, Theme)
    decreases |ops|
  {
    if ops == [] then held
    else
      var (t, answer) := Step(env, s, ops[0]);
      Followed(env, t, ops[1..],
        if Published(answer) then CopyDomains(held, t.current.candidate, answer.result.value.changedDomains) else held)
  }

  /** After every run such a client holds the current configuration and theme. */
  lemma {:induction false} FollowingKeepsUp(env: Environment, s: State, ops: seq<Operation>)
    ensures Followed(env, s, ops, Held(s.current.candidate)) == Held(Run(env, s, ops).current.candidate)
    decreases |ops|
  {
    hide Changed, Step, CopyDomains;
    if ops != [] {
      var (t, answer) := Step(env, s, ops[0]);
      GenerationsAdvanceByPublishing(env, s, ops[0]);
      if Published(answer) {
        ChangedDomainsSuffice(s.current.candidate, t.current.candidate);
      }
      FollowingKeepsUp(env, t, ops[1..]);
    }
  }

  /** A profile change that publishes changes the profile and nothing else that the user controls. */
  lemma {:induction false} ProfileChangeKeepsDomains(env: Environment, s: State, id: string)
    requires Coherent(env, s)
    requires Published(Step(env, s, ChangeProfile(id)).1)
    ensures var t := Step(env, s, ChangeProfile(id)).0;
      && ParseProfile(id) == Some(t.current.candidate.configuration.profile)
      && t.current.candidate.configuration
          == s.current.candidate.configuration.(profile := t.current.candidate.configuration.profile)
      && t.current.candidate.configuration.profile != s.current.candidate.configuration.profile
      && t.current.candidate.warnings == s.current.candidate.warnings
      && t.current.candidate.provenance == Provenance(s.current.candidate.provenance.source, true)
      && t.bundle == s.bundle
  {
    hide Changed;
  }

  /** A validation accepts exactly the documents that a profile-preserving reload of the held bundle could build. */
  lemma {:induction false} ValidationForeseesReload(env: Environment, s: State, toml: string,
      configuration: Configuration)
    requires |toml| <= MAXIMUM_CONFIGURATION_BYTES && env.parse(toml) == Success(configuration)
    ensures Step(env, s, Validate(toml)).1 == Validation(Success(None))
        <==> Build(env, s.bundle, configuration, Provenance(User, false), []).Success?
    ensures Step(env, s, Validate(toml)).1 == Validation(Success(None))
         && s.current.generation < U64_MAX
         && (forall g, c :: env.serialize(g, c).Success?)
        ==> !Failing(Step(env, s, Reload(Success(Loaded(configuration, User)), Success(s.bundle), true)).1)
  {
    hide Changed;
  }

  /** Repeating a reload that published, with the same inputs, publishes nothing more. */
  lemma {:induction false} ReloadIsIdempotent(env: Environment, s: State, loaded: Result<Loaded>,
      replacement: Result<Bundle>, promoted: bool)
    requires !Failing(Step(env, s, Reload(loaded, replacement, promoted)).1)
    ensures var op := Reload(loaded, replacement, promoted);
      var once := Step(env, s, op).0;
      Step(env, once, op) == (once, Publication(Success(Outcome(once.current, [], false, []))))
  {
    hide Changed;
  }
}
