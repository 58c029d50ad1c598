/** The Modal release manifest: validation, the release step, cleanup lists and pruning. */
module ReleaseManifests {
  import opened Common

  /** A stored app reference. `extraKeys` are keys outside the schema. */
  datatype App = App(
    name: string,
    versions: map<string, string>,
    deployedAt: string,
    minimumRevision: Option<string>,
    databaseRevision: Option<string>,
    extraKeys: set<string>)

  datatype Reason = ReplacedCurrent | ReplacedFrontier | FrontierCleared

  /** A retired app keeps its reference and may carry the time and reason of its retirement. */
  datatype Retired = Retired(app: App, at: Option<string>, reason: Option<Reason>)

  datatype Manifest = Manifest(schemaVersion: int, current: Option<App>, frontier: Option<App>, retired: seq<Retired>)

  const MANIFEST_SCHEMA_VERSION := 1
  const EMPTY_MANIFEST := Manifest(MANIFEST_SCHEMA_VERSION, None, None, [])
  const RELEASE_COUNTRIES: set<string> := {"uk", "us"}

  datatype ManifestError =
    | UnsupportedSchema
    | UnsupportedKeys
    | EmptyString
    | UnsupportedCountry
    | MissingCountry
    | NewAppRequired
    | CleanupOfActiveApp(name: string)

  datatype NewAppTarget = ToFrontier | ToCurrent | ToBoth | ToNone

  datatype CleanupTarget = CleanNothing | CleanRetired | CleanFrontier | CleanCurrent

  datatype ReleaseConfig = ReleaseConfig(target: NewAppTarget, promote: bool, cleanup: CleanupTarget) {
    predicate DeploysNewApp() {
      !target.ToNone?
    }
  }

  // ----- validation -----

  predicate ValidApp(a: App) {
    && a.extraKeys == {}
    && a.name != "" && a.deployedAt != ""
    && a.versions.Keys == RELEASE_COUNTRIES
    && forall c <- a.versions :: a.versions[c] != ""
  }

  predicate ValidChannel(a: Option<App>) {
    a.Some? ==> ValidApp(a.value)
  }

  predicate ValidManifest(m: Manifest) {
    && m.schemaVersion == MANIFEST_SCHEMA_VERSION
    && ValidChannel(m.current) && ValidChannel(m.frontier)
    && forall r <- m.retired :: ValidApp(r.app)
  }

  /** `_validate_app_reference`, check by check; versions are reduced to the release countries. */
  function ValidateApp(a: App): (r: Result<App, ManifestError>)
    ensures r.Success? <==> ValidApp(a)
    ensures r.Success? ==> r.value == a
  {
    if a.extraKeys != {} then Failure(UnsupportedKeys)
    else if a.name == "" || a.deployedAt == "" then Failure(EmptyString)
    else
      var versions := map c | c in RELEASE_COUNTRIES && c in a.versions && a.versions[c] != "" :: a.versions[c];
      if exists c <- a.versions :: c !in RELEASE_COUNTRIES then Failure(UnsupportedCountry)
      else if versions.Keys != RELEASE_COUNTRIES then Failure(MissingCountry)
      else
        assert versions == a.versions;
        Success(a.(versions := versions))
  }

  /** An app reference is refused for a key outside the schema, an empty name or time, a country other
      than "uk" and "us", or a missing or empty version of either, and for nothing else. */
  lemma AppRefusedExactly(a: App)
    ensures ValidateApp(a).Failure? <==>
              || (exists k :: k in a.extraKeys)
              || a.name == "" || a.deployedAt == ""
              || (exists c <- a.versions :: c != "uk" && c != "us")
              || "uk" !in a.versions || a.versions["uk"] == ""
              || "us" !in a.versions || a.versions["us"] == ""
  {
    assert a.versions.Keys == {"uk", "us"}
      <==> "uk" in a.versions && "us" in a.versions && forall c <- a.versions :: c == "uk" || c == "us";
    assert a.extraKeys != {} <==> exists k :: k in a.extraKeys;
  }

  function ValidateChannel(a: Option<App>): (r: Result<Option<App>, ManifestError>)
    ensures r.Success? <==> ValidChannel(a)
    ensures r.Success? ==> r.value == a
  {
    match a
    case None => Success(None)
    case Some(app) =>
      match ValidateApp(app)
      case Success(v) => Success(Some(v))
      case Failure(e) => Failure(e)
  }

  /** `validate_manifest`: accepts exactly the valid manifests and returns them unchanged. */
  method ValidateManifest(manifest: Option<Manifest>) returns (r: Result<Manifest, ManifestError>)
    ensures manifest.None? ==> r == Success(EMPTY_MANIFEST)
    ensures manifest.Some? ==> (r.Success? <==> ValidManifest(manifest.value))
    ensures manifest.Some? && r.Success? ==> r.value == manifest.value
  {
    if manifest.None? {
      return Success(EMPTY_MANIFEST);
    }
    var m := manifest.value;
    if m.schemaVersion != MANIFEST_SCHEMA_VERSION {
      return Failure(UnsupportedSchema);
    }
    var current := ValidateChannel(m.current);
    if current.Failure? {
      return Failure(current.error);
    }
    var frontier := ValidateChannel(m.frontier);
    if frontier.Failure? {
      return Failure(frontier.error);
    }
    var retired: seq<Retired> := [];
    for i := 0 to |m.retired|
      invariant retired == m.retired[..i]
      invariant forall r <- retired :: ValidApp(r.app)
    {
      var entry := ValidateApp(m.retired[i].app);
      if entry.Failure? {
        assert m.retired[i] in m.retired;
        return Failure(entry.error);
      }
      retired := retired + [m.retired[i].(app := entry.value)];
    }
    return Success(Manifest(m.schemaVersion, current.value, frontier.value, retired));
  }

  // ----- the release step -----

  /** `_retire_entry`. */
  function RetireEntry(retired: seq<Retired>, entry: Option<App>, at: string, reason: Reason): seq<Retired> {
    match entry
    case None => retired
    case Some(app) => retired + [Retired(app, Some(at), Some(reason))]
  }

  /** The manifest a release with a given new app leads to. */
  function Release(m: Manifest, config: ReleaseConfig, app: Option<App>, at: string): Manifest
    requires config.DeploysNewApp() ==> app.Some?
  {
    match config.target
    case ToNone => m
    case ToFrontier =>
      if config.promote
      then m.(current := m.frontier, frontier := app, retired := RetireEntry(m.retired, m.current, at, ReplacedCurrent))
      else m.(frontier := app, retired := RetireEntry(m.retired, m.frontier, at, ReplacedFrontier))
    case ToCurrent =>
      m.(current := app, frontier := None,
         retired := RetireEntry(RetireEntry(m.retired, m.current, at, ReplacedCurrent), m.frontier, at, FrontierCleared))
    case ToBoth =>
      m.(current := app, frontier := app,
         retired := RetireEntry(RetireEntry(m.retired, m.current, at, ReplacedCurrent), m.frontier, at, ReplacedFrontier))
  }

  /** The retired history goes on with the apps that lost their channel, current first, each with the
      time of the release and the reason for it. */
  predicate ReplacedAppsRetired(m: Manifest, config: ReleaseConfig, at: string, m': Manifest) {
    var fromCurrent := if m.current.None? then [] else [Retired(m.current.value, Some(at), Some(ReplacedCurrent))];
    var fromFrontier := (reason: Reason) =>
      if m.frontier.None? then [] else [Retired(m.frontier.value, Some(at), Some(reason))];
    match config.target
    case ToFrontier => m'.retired == m.retired + if config.promote then fromCurrent else fromFrontier(ReplacedFrontier)
    case ToCurrent => m'.retired == m.retired + fromCurrent + fromFrontier(FrontierCleared)
    case ToBoth => m'.retired == m.retired + fromCurrent + fromFrontier(ReplacedFrontier)
    case ToNone => m'.retired == m.retired
  }

  lemma ReleaseStaysValid(m: Manifest, config: ReleaseConfig, app: Option<App>, at: string)
    requires ValidManifest(m) && (config.DeploysNewApp() ==> app.Some?)
    ensures ValidManifest(Release(m, config, app, at)) <==> (config.DeploysNewApp() ==> ValidApp(app.value))
  {
    var m' := Release(m, config, app, at);
    forall r <- m'.retired ensures ValidApp(r.app) {
    }
  }

  /** `apply_release_config`: channel by channel, as the manifest's keys are reassigned. */
  method ApplyReleaseConfig(manifest: Option<Manifest>, config: ReleaseConfig, newApp: Option<App>, timestamp: string)
    returns (r: Result<Manifest, ManifestError>)
    ensures var m := if manifest.None? then EMPTY_MANIFEST else manifest.value;
            && (r.Success? <==> ValidManifest(m) && (config.DeploysNewApp() ==> newApp.Some? && ValidApp(newApp.value)))
            && (r.Success? ==> r.value == Release(m, config, newApp, timestamp))
    ensures r.Success? ==>
              var m := if manifest.None? then EMPTY_MANIFEST else manifest.value;
              match config.target
              case ToFrontier => r.value.frontier == newApp && r.value.current == if config.promote then m.frontier else m.current
              case ToCurrent => r.value.current == newApp && r.value.frontier == None
              case ToBoth => r.value.current == newApp && r.value.frontier == newApp
              case ToNone => r.value == m
    ensures r.Success? ==> ReplacedAppsRetired(if manifest.None? then EMPTY_MANIFEST else manifest.value, config, timestamp, r.value)
  {
    var validated := ValidateManifest(manifest);
    if validated.Failure? {
      return Failure(validated.error);
    }
    var next := validated.value;
    var retired := next.retired;
    if config.DeploysNewApp() && newApp.None? {
      return Failure(NewAppRequired);
    }
    match config.target {
      case ToFrontier =>
        if config.promote {
          retired := RetireEntry(retired, next.current, timestamp, ReplacedCurrent);
          next := next.(current := next.frontier);
        } else {
          retired := RetireEntry(retired, next.frontier, timestamp, ReplacedFrontier);
        }
        next := next.(frontier := newApp);
      case ToCurrent =>
        retired := RetireEntry(retired, next.current, timestamp, ReplacedCurrent);
        retired := RetireEntry(retired, next.frontier, timestamp, FrontierCleared);
        next := next.(current := newApp);
        next := next.(frontier := None);
      case ToBoth =>
        retired := RetireEntry(retired, next.current, timestamp, ReplacedCurrent);
        retired := RetireEntry(retired, next.frontier, timestamp, ReplacedFrontier);
        next := next.(current := newApp);
        next := next.(frontier := newApp);
      case ToNone =>
    }
    next := next.(retired := retired);
    ReleaseStaysValid(validated.value, config, newApp, timestamp);
    r := ValidateManifest(Some(next));
  }

  // ----- cleanup lists and pruning -----

  function ChannelName(a: Option<App>): set<string> {
    if a.Some? then {a.value.name} else {}
  }

  function ActiveNames(m: Manifest): set<string> {
    ChannelName(m.current) + ChannelName(m.frontier)
  }

  /** Where a name occurs first. */
  function FirstAt(retired: seq<Retired>, name: string): (i: nat)
    ensures i <= |retired| && (i < |retired| ==> retired[i].app.name == name)
    ensures forall j :: 0 <= j < i ==> retired[j].app.name != name
  {
    if retired == [] then 0
    else
      var n := |retired| - 1;
      var i := FirstAt(retired[..n], name);
      if i < n || retired[n].app.name == name then i else n + 1
  }

  /** The names stand in the order of their first occurrences, all of them before position n. */
  ghost predicate InFirstOrder(retired: seq<Retired>, names: seq<string>, n: nat) {
    && (forall i :: 0 <= i < |names| ==> FirstAt(retired, names[i]) < n)
    && (forall i, j :: 0 <= i < j < |names| ==> FirstAt(retired, names[i]) < FirstAt(retired, names[j]))
  }

  lemma FirstOrderGrows(retired: seq<Retired>, names: seq<string>, n: nat, name: string)
    requires InFirstOrder(retired, names, n) && FirstAt(retired, name) == n
    ensures InFirstOrder(retired, names + [name], n + 1)
  {
  }

  /** `_unique_app_names`, on the names that survive the active-app filter: first occurrences, in order. */
  method UniqueAppNames(retired: seq<Retired>, active: set<string>) returns (names: seq<string>)
    ensures forall i, j :: 0 <= i < j < |names| ==> names[i] != names[j]
    ensures forall n :: n in names <==> n !in active && exists r <- retired :: r.app.name == n
    ensures InFirstOrder(retired, names, |retired|)
  {
    var seen: set<string> := {};
    names := [];
    for i := 0 to |retired|
      invariant forall n :: n in seen <==> n in names
      invariant forall n :: n in names <==> n !in active && exists r <- retired[..i] :: r.app.name == n
      invariant InFirstOrder(retired, names, i)
    {
      var name := retired[i].app.name;
      assert forall r :: r in retired[..i + 1] <==> r in retired[..i] || r == retired[i];
      if name !in active && name !in seen {
        FirstIsHere(retired, i);
        FirstOrderGrows(retired, names, i, name);
        seen := seen + {name};
        names := names + [name];
      }
    }
    assert retired[..|retired|] == retired;
  }

  lemma FirstIsHere(retired: seq<Retired>, i: nat)
    requires i < |retired| && !exists r <- retired[..i] :: r.app.name == retired[i].app.name
    ensures FirstAt(retired, retired[i].app.name) == i
  {
    forall j | 0 <= j < i ensures retired[j].app.name != retired[i].app.name {
      assert retired[j] in retired[..i];
    }
  }

  /** What a cleanup list may contain. */
  ghost predicate CleanupNames(m: Manifest, target: CleanupTarget, previous: Option<Manifest>, names: seq<string>) {
    match target
    case CleanNothing => names == []
    case CleanRetired =>
      && (forall i, j :: 0 <= i < j < |names| ==> names[i] != names[j])
      && forall n :: n in names <==> n !in ActiveNames(m) && exists r <- m.retired :: r.app.name == n
    case _ =>
      var channel := TargetChannel(if previous.Some? then previous.value else m, target);
      && (channel.None? ==> names == [])
      && (channel.Some? ==> names == [channel.value.name] && channel.value.name !in ActiveNames(m))
  }

  function TargetChannel(m: Manifest, target: CleanupTarget): Option<App> {
    if target.CleanFrontier? then m.frontier else m.current
  }

  /** `cleanup_app_names_for_target`. It refuses exactly when the chosen channel's app is active. */
  method CleanupAppNamesForTarget(m: Manifest, target: CleanupTarget, previous: Option<Manifest>)
    returns (r: Result<seq<string>, ManifestError>)
    requires ValidManifest(m) && (previous.Some? ==> ValidManifest(previous.value))
    ensures r.Success? ==> CleanupNames(m, target, previous, r.value)
    ensures r.Success? && target.CleanNothing? ==> r.value == []
    ensures r.Success? && target.CleanCurrent? ==>
              var current := if previous.Some? then previous.value.current else m.current;
              r.value == if current.Some? then [current.value.name] else []
    ensures r.Success? && target.CleanFrontier? ==>
              var frontier := if previous.Some? then previous.value.frontier else m.frontier;
              r.value == if frontier.Some? then [frontier.value.name] else []
    ensures r.Success? ==> forall n <- r.value ::
              (m.current.Some? ==> m.current.value.name != n) && (m.frontier.Some? ==> m.frontier.value.name != n)
    ensures r.Failure? <==>
              && (target.CleanCurrent? || target.CleanFrontier?)
              && var channel := TargetChannel(if previous.Some? then previous.value else m, target);
                 channel.Some? && channel.value.name in ActiveNames(m)
  {
    var active := ActiveNames(m);
    if target.CleanNothing? {
      return Success([]);
    }
    if target.CleanRetired? {
      var names := UniqueAppNames(m.retired, active);
      return Success(names);
    }
    var channel := TargetChannel(if previous.Some? then previous.value else m, target);
    if channel.None? {
      return Success([]);
    }
    if channel.value.name in active {
      return Failure(CleanupOfActiveApp(channel.value.name));
    }
    return Success([channel.value.name]);
  }

  function KeepUnlisted(retired: seq<Retired>, names: set<string>): (kept: seq<Retired>)
    ensures forall r :: r in kept <==> r in retired && r.app.name !in names
  {
    if retired == [] then []
    else
      var n := |retired| - 1;
      var kept := KeepUnlisted(retired[..n], names);
      if retired[n].app.name in names then kept else kept + [retired[n]]
  }

  /** `prune_cleaned_retired_apps`. */
  function Prune(m: Manifest, names: set<string>): Manifest {
    m.(retired := KeepUnlisted(m.retired, names))
  }

  /** Without the previous manifest, cleaning an active channel never names anything: it finds the
      channel empty or refuses. */
  lemma ActiveCleanupNeedsPrevious(m: Manifest, target: CleanupTarget, names: seq<string>)
    requires (target.CleanCurrent? || target.CleanFrontier?) && CleanupNames(m, target, None, names)
    ensures names == [] && TargetChannel(m, target).None?
  {
  }
}
