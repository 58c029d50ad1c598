/** The two routers that read the release: the Modal gateway on the release manifest, and the
    failover gateway on the manifest derived from it. */
module VersionRouters {
  import opened Common
  import opened ReleaseManifests

  const ACTIVE_RELEASE_CHANNELS: seq<Channel> := [Current, Frontier]

  lemma EveryChannelIsActive()
    ensures forall c: Channel :: c in ACTIVE_RELEASE_CHANNELS[..|ACTIVE_RELEASE_CHANNELS|] && c in ACTIVE_RELEASE_CHANNELS
    ensures (set c | c in ACTIVE_RELEASE_CHANNELS[..|ACTIVE_RELEASE_CHANNELS|]) == {Current, Frontier}
  {
    assert ACTIVE_RELEASE_CHANNELS[..|ACTIVE_RELEASE_CHANNELS|] == ACTIVE_RELEASE_CHANNELS;
    forall c: Channel ensures c in ACTIVE_RELEASE_CHANNELS {
      assert c == ACTIVE_RELEASE_CHANNELS[if c.Current? then 0 else 1];
    }
  }

  function NamedChannel(text: string): Option<Channel> {
    if text == "current" then Some(Current) else if text == "frontier" then Some(Frontier) else None
  }

  datatype RoutingError =
    | ChannelUnavailable(channel: Channel)
    | CountryRequired
    | UnsupportedVersion(country: string, requested: string, available: map<Channel, string>)

  // ----- versions served by the channels -----

  /** What a channel serves, whichever manifest it is read from: nothing, or package versions. */
  type VersionTable = map<Channel, Option<map<string, string>>>

  function VersionAt(table: VersionTable, channel: Channel, country: string): Option<string> {
    if channel in table && table[channel].Some? && country in table[channel].value then Some(table[channel].value[country])
    else None
  }

  function ActiveVersions(table: VersionTable, country: string): map<Channel, string> {
    map c | c in table && VersionAt(table, c, country).Some? && VersionAt(table, c, country).value != "" ::
      VersionAt(table, c, country).value
  }

  /** `active_versions_for_country`. */
  method ActiveVersionsForCountry(table: VersionTable, country: string) returns (active: map<Channel, string>)
    ensures active == ActiveVersions(table, country)
    ensures forall c :: c in active <==>
              c in table && table[c].Some? && country in table[c].value && table[c].value[country] != ""
    ensures forall c <- active :: active[c] == table[c].value[country]
  {
    active := map[];
    for i := 0 to |ACTIVE_RELEASE_CHANNELS|
      invariant forall c :: c in active <==> c in ACTIVE_RELEASE_CHANNELS[..i] && c in ActiveVersions(table, country)
      invariant forall c <- active :: Some(active[c]) == VersionAt(table, c, country)
    {
      var channel := ACTIVE_RELEASE_CHANNELS[i];
      if channel in table && table[channel].Some? && country in table[channel].value {
        var version := table[channel].value[country];
        if version != "" {
          active := active[channel := version];
        }
      }
    }
    EveryChannelIsActive();
  }

  // ----- the Modal gateway -----

  datatype ResolvedApp = ResolvedApp(appName: string, requested: string, channel: Channel)

  function ChannelApp(m: Manifest, channel: Channel): Option<App> {
    if channel.Current? then m.current else m.frontier
  }

  function AppVersions(a: Option<App>): Option<map<string, string>> {
    if a.Some? then Some(a.value.versions) else None
  }

  function ModalTable(m: Manifest): VersionTable {
    map[Current := AppVersions(m.current), Frontier := AppVersions(m.frontier)]
  }

  function Requested(requested: Option<string>): string {
    if requested.Some? && requested.value != "" then requested.value else "current"
  }

  /** `resolve_app_for_request`. */
  function ResolveApp(m: Manifest, country: Option<string>, requestedVersion: Option<string>): Result<ResolvedApp, RoutingError> {
    var requested := Requested(requestedVersion);
    match NamedChannel(requested)
    case Some(channel) =>
      (match ChannelApp(m, channel)
       case None => Failure(ChannelUnavailable(channel))
       case Some(app) => Success(ResolvedApp(app.name, requested, channel)))
    case None =>
      if country.None? || country.value == "" then Failure(CountryRequired)
      else if VersionAt(ModalTable(m), Current, country.value) == Some(requested)
      then Success(ResolvedApp(m.current.value.name, requested, Current))
      else if VersionAt(ModalTable(m), Frontier, country.value) == Some(requested)
      then Success(ResolvedApp(m.frontier.value.name, requested, Frontier))
      else Failure(UnsupportedVersion(country.value, requested, ActiveVersions(ModalTable(m), country.value)))
  }

  /** The channel is asked for by name: a request that names no version asks for "current". */
  predicate AsksFor(requested: Option<string>, name: string) {
    (requested.Some? && requested.value == name) || (name == "current" && (requested.None? || requested.value == ""))
  }

  /** The app of a channel serves the requested version of the country. */
  predicate Serves(a: Option<App>, country: Option<string>, requested: Option<string>) {
    && a.Some? && country.Some? && country.value != "" && requested.Some? && requested.value != ""
    && country.value in a.value.versions && a.value.versions[country.value] == requested.value
  }

  /** The Modal gateway's answer, on the manifest and the request alone: a channel asked for by name is
      that channel or an error, anything else is the first channel, current before frontier, that serves
      the version. */
  lemma ResolvesExactly(m: Manifest, country: Option<string>, requested: Option<string>)
    ensures var r := ResolveApp(m, country, requested);
            var byName := AsksFor(requested, "current") || AsksFor(requested, "frontier");
            && (r.Success? && r.value.channel.Current? <==>
                  m.current.Some? && (AsksFor(requested, "current") || (!byName && Serves(m.current, country, requested))))
            && (r.Success? && r.value.channel.Frontier? <==>
                  m.frontier.Some? && (AsksFor(requested, "frontier")
                                       || (!byName && !Serves(m.current, country, requested) && Serves(m.frontier, country, requested))))
            && (r.Success? ==>
                  && r.value.appName == (if r.value.channel.Current? then m.current else m.frontier).value.name
                  && r.value.requested == if requested.Some? && requested.value != "" then requested.value else "current")
            && (r == Failure(ChannelUnavailable(Current)) <==> AsksFor(requested, "current") && m.current.None?)
            && (r == Failure(ChannelUnavailable(Frontier)) <==> AsksFor(requested, "frontier") && m.frontier.None?)
            && (r == Failure(CountryRequired) <==> !byName && (country.None? || country.value == ""))
  {
  }

  /** The error for an unsupported version names the request and lists, for each channel that serves the
      country, the version it serves. */
  lemma UnsupportedListsServed(m: Manifest, country: Option<string>, requested: Option<string>)
    requires var r := ResolveApp(m, country, requested); r.Failure? && r.error.UnsupportedVersion?
    ensures var e := ResolveApp(m, country, requested).error;
            && Some(e.country) == country && Some(e.requested) == requested
            && (forall c :: c in e.available <==>
                  var a := if c == Current then m.current else m.frontier;
                  a.Some? && e.country in a.value.versions && a.value.versions[e.country] != "")
            && (forall c <- e.available ::
                  var a := if c == Current then m.current else m.frontier;
                  e.available[c] == a.value.versions[e.country])
  {
  }

  // ----- the failover manifest -----

  datatype Reference = Reference(
    modalAppName: string,
    workerUrl: string,
    versions: map<string, string>,
    deployedAt: Option<string>,
    minimumRevision: Option<string>,
    databaseRevision: Option<string>)

  datatype FailoverManifest = FailoverManifest(channels: map<Channel, Option<Reference>>)

  datatype FailoverError =
    | MissingWorkerUrl(channel: Channel)
    | InvalidString(channel: Channel)
    | NoPackageVersions(channel: Channel)

  /** `package_versions_from_mapping`. */
  function PackageVersions(versions: map<string, string>): map<string, string> {
    map c | c in versions && c != "" && versions[c] != "" :: versions[c]
  }

  /** `_validate_channel_reference` on a reference with the schema's keys. */
  function ValidateReference(channel: Channel, r: Reference): (v: Result<Reference, FailoverError>)
    ensures v.Success? <==> r.modalAppName != "" && r.workerUrl != "" && PackageVersions(r.versions) != map[]
    ensures v.Success? ==> v.value == r.(versions := PackageVersions(r.versions))
  {
    if r.modalAppName == "" || r.workerUrl == "" then Failure(InvalidString(channel))
    else if PackageVersions(r.versions) == map[] then Failure(NoPackageVersions(channel))
    else Success(r.(versions := PackageVersions(r.versions)))
  }

  /** An optional key is carried over only when it has a non-empty value. */
  function Truthy(value: Option<string>): Option<string> {
    if value == Some("") then None else value
  }

  /** The reference the failover manifest keeps for an app. */
  function ReferenceFor(app: App, workerUrl: string): Reference {
    Reference(app.name, workerUrl, app.versions, Truthy(Some(app.deployedAt)), Truthy(app.minimumRevision),
              Truthy(app.databaseRevision))
  }

  /** A worker URL is known and usable for every channel that serves an app. */
  predicate UrlsCover(m: Manifest, urls: map<Channel, string>) {
    forall c <- ACTIVE_RELEASE_CHANNELS :: ChannelApp(m, c).Some? ==> c in urls && urls[c] != ""
  }

  /** The failover manifest keeps exactly the channels' apps, each with its worker URL. */
  ghost predicate Mirrors(m: Manifest, urls: map<Channel, string>, f: FailoverManifest) {
    && f.channels.Keys == {Current, Frontier}
    && forall c <- f.channels :: MirrorsChannel(m, urls, c, f.channels[c])
  }

  predicate MirrorsChannel(m: Manifest, urls: map<Channel, string>, c: Channel, r: Option<Reference>) {
    match ChannelApp(m, c)
    case None => r == None
    case Some(app) => c in urls && r == Some(ReferenceFor(app, urls[c]))
  }

  /** `build_failover_manifest`: succeeds exactly when every serving channel has a worker URL. */
  method BuildFailoverManifest(m: Manifest, urls: map<Channel, string>) returns (r: Result<FailoverManifest, FailoverError>)
    requires ValidManifest(m)
    ensures r.Success? <==> UrlsCover(m, urls)
    ensures r.Success? ==> Mirrors(m, urls, r.value)
  {
    EveryChannelIsActive();
    var channels: map<Channel, Option<Reference>> := map[];
    for i := 0 to |ACTIVE_RELEASE_CHANNELS|
      invariant channels.Keys == set c | c in ACTIVE_RELEASE_CHANNELS[..i]
      invariant forall c <- channels :: MirrorsChannel(m, urls, c, channels[c])
    {
      var channel := ACTIVE_RELEASE_CHANNELS[i];
      var app := ChannelApp(m, channel);
      if app.None? {
        channels := channels[channel := None];
      } else if channel !in urls {
        return Failure(MissingWorkerUrl(channel));
      } else {
        channels := channels[channel := Some(ReferenceFor(app.value, urls[channel]))];
      }
    }
    var unchecked := FailoverManifest(channels);
    r := ValidateFailoverManifest(unchecked);
    MirrorValidity(m, urls, unchecked);
    if r.Success? {
      assert r.value.channels == channels;
    }
  }

  /** A mirrored manifest passes validation exactly when its worker URLs are usable, unchanged. */
  lemma MirrorValidity(m: Manifest, urls: map<Channel, string>, f: FailoverManifest)
    requires ValidManifest(m) && Mirrors(m, urls, f)
    ensures ValidReferences(f) <==> UrlsCover(m, urls)
    ensures forall c <- f.channels :: f.channels[c].Some? ==>
              PackageVersions(f.channels[c].value.versions) == f.channels[c].value.versions
  {
    EveryChannelIsActive();
    forall c: Channel | ChannelApp(m, c).Some?
      ensures PackageVersions(ChannelApp(m, c).value.versions) == ChannelApp(m, c).value.versions != map[]
    {
      VersionsSurvive(ChannelApp(m, c).value);
    }
  }

  lemma VersionsSurvive(app: App)
    requires ValidApp(app)
    ensures PackageVersions(app.versions) == app.versions != map[]
  {
    assert "uk" in app.versions.Keys;
  }

  /** A channel without an entry reads as a channel that serves nothing. */
  function ChannelEntry(f: FailoverManifest, c: Channel): Option<Reference> {
    if c in f.channels then f.channels[c] else None
  }

  predicate ValidEntry(c: Channel, r: Option<Reference>) {
    r.Some? ==> ValidateReference(c, r.value).Success?
  }

  predicate ValidReferences(f: FailoverManifest) {
    forall c <- ACTIVE_RELEASE_CHANNELS :: ValidEntry(c, ChannelEntry(f, c))
  }

  /** A reference as validation returns it: with its usable package versions only. */
  function Validated(r: Option<Reference>): Option<Reference> {
    if r.None? then None else Some(r.value.(versions := PackageVersions(r.value.versions)))
  }

  /** `validate_failover_manifest`, channel by channel. */
  method ValidateFailoverManifest(f: FailoverManifest) returns (r: Result<FailoverManifest, FailoverError>)
    ensures r.Success? <==> ValidReferences(f)
    ensures r.Success? ==> r.value.channels.Keys == {Current, Frontier}
    ensures r.Success? ==> forall c <- r.value.channels :: r.value.channels[c] == Validated(ChannelEntry(f, c))
  {
    EveryChannelIsActive();
    var validated: map<Channel, Option<Reference>> := map[];
    for i := 0 to |ACTIVE_RELEASE_CHANNELS|
      invariant validated.Keys == set c | c in ACTIVE_RELEASE_CHANNELS[..i]
      invariant forall c <- validated :: ValidEntry(c, ChannelEntry(f, c)) && validated[c] == Validated(ChannelEntry(f, c))
    {
      var channel := ACTIVE_RELEASE_CHANNELS[i];
      var entry := ChannelEntry(f, channel);
      if entry.None? {
        validated := validated[channel := None];
      } else {
        var reference := ValidateReference(channel, entry.value);
        if reference.Failure? {
          assert channel in ACTIVE_RELEASE_CHANNELS && !ValidEntry(channel, entry);
          return Failure(reference.error);
        }
        validated := validated[channel := Some(reference.value)];
      }
    }
    return Success(FailoverManifest(validated));
  }

  // ----- the failover gateway -----

  datatype ResolvedFailover = ResolvedFailover(
    channel: Channel, requested: string, modalAppName: string, workerUrl: string, versions: map<string, string>)

  function ReferenceVersions(r: Option<Reference>): Option<map<string, string>> {
    if r.Some? then Some(r.value.versions) else None
  }

  function FailoverTable(f: FailoverManifest): VersionTable {
    map c | c in f.channels :: ReferenceVersions(f.channels[c])
  }

  function Resolved(f: FailoverManifest, channel: Channel, requested: string): ResolvedFailover
    requires channel in f.channels && f.channels[channel].Some?
  {
    var r := f.channels[channel].value;
    ResolvedFailover(channel, requested, r.modalAppName, r.workerUrl, r.versions)
  }

  /** `resolve_failover_channel_for_request` on a validated manifest. */
  function ResolveFailover(f: FailoverManifest, country: Option<string>, requestedVersion: Option<string>)
    : Result<ResolvedFailover, RoutingError>
    requires f.channels.Keys == {Current, Frontier}
  {
    var requested := Requested(requestedVersion);
    match NamedChannel(requested)
    case Some(channel) =>
      if f.channels[channel].None? then Failure(ChannelUnavailable(channel)) else Success(Resolved(f, channel, requested))
    case None =>
      if country.None? || country.value == "" then Failure(CountryRequired)
      else if VersionAt(FailoverTable(f), Current, country.value) == Some(requested)
      then Success(Resolved(f, Current, requested))
      else if VersionAt(FailoverTable(f), Frontier, country.value) == Some(requested)
      then Success(Resolved(f, Frontier, requested))
      else Failure(UnsupportedVersion(country.value, requested, ActiveVersions(FailoverTable(f), country.value)))
  }

  // ----- agreement -----

  lemma MirroredTables(m: Manifest, urls: map<Channel, string>, f: FailoverManifest)
    requires Mirrors(m, urls, f)
    ensures FailoverTable(f) == ModalTable(m)
  {
  }

  /** Whatever is asked for, the two gateways answer alike: they succeed together, on the same app,
      channel and requested version, and fail together with the same error, down to the list of
      available versions. */
  lemma RoutersAgree(m: Manifest, urls: map<Channel, string>, f: FailoverManifest, country: Option<string>, requested: Option<string>)
    requires Mirrors(m, urls, f)
    ensures match (ResolveApp(m, country, requested), ResolveFailover(f, country, requested))
            case (Success(a), Success(b)) =>
              && a.appName == b.modalAppName && a.requested == b.requested && a.channel == b.channel
              && b.channel in urls && b.workerUrl == urls[b.channel]
            case (Failure(e), Failure(e')) => e == e'
            case _ => false
  {
    MirroredTables(m, urls, f);
  }

  // ----- the public versions view -----

  datatype PublicChannel = PublicChannel(
    appName: string, versions: map<string, string>, deployedAt: Option<string>,
    minimumRevision: Option<string>, databaseRevision: Option<string>)

  function PublicReference(r: Option<Reference>): Option<PublicChannel> {
    if r.None? then None
    else Some(PublicChannel(r.value.modalAppName, r.value.versions, r.value.deployedAt, r.value.minimumRevision, r.value.databaseRevision))
  }

  /** What the Modal gateway itself publishes for a channel. */
  function PublicApp(a: Option<App>): Option<PublicChannel> {
    if a.None? then None
    else Some(PublicChannel(a.value.name, a.value.versions, Some(a.value.deployedAt), a.value.minimumRevision, a.value.databaseRevision))
  }

  /** The reference behind a public entry, given the worker URL that the entry leaves out. */
  function WithUrl(p: PublicChannel, workerUrl: string): Reference {
    Reference(p.appName, workerUrl, p.versions, p.deployedAt, p.minimumRevision, p.databaseRevision)
  }

  /** The public entry hides the worker URL and nothing else: with the URL, the reference can be
      read back from it, and two references share an entry exactly when they differ in the URL only. */
  lemma ViewHidesUrlOnly(r: Option<Reference>, r': Option<Reference>)
    ensures r.Some? ==> PublicReference(r).Some? && WithUrl(PublicReference(r).value, r.value.workerUrl) == r.value
    ensures PublicReference(r) == PublicReference(r')
       <==> (r.None? && r'.None?) || (r.Some? && r'.Some? && r.value == r'.value.(workerUrl := r.value.workerUrl))
  {
    if r.Some? && r'.Some? && PublicReference(r) == PublicReference(r') {
      var url := r.value.workerUrl;
      assert r.value == WithUrl(PublicReference(r).value, url) == WithUrl(PublicReference(r').value, url);
    }
  }

  /** `public_versions_view`. From the view and the worker URLs the channels can be read back. */
  method PublicVersionsView(f: FailoverManifest) returns (view: map<Channel, Option<PublicChannel>>)
    requires f.channels.Keys == {Current, Frontier}
    ensures view.Keys == {Current, Frontier}
    ensures forall c <- view :: view[c] == PublicReference(f.channels[c])
    ensures forall c <- view :: f.channels[c].None? <==> view[c].None?
    ensures forall c <- view :: f.channels[c].Some? ==>
              f.channels[c].value == WithUrl(view[c].value, f.channels[c].value.workerUrl)
  {
    view := map[];
    for i := 0 to |ACTIVE_RELEASE_CHANNELS|
      invariant view.Keys == set c | c in ACTIVE_RELEASE_CHANNELS[..i]
      invariant forall c <- view :: view[c] == PublicReference(f.channels[c])
    {
      var channel := ACTIVE_RELEASE_CHANNELS[i];
      view := view[channel := PublicReference(f.channels[channel])];
    }
    EveryChannelIsActive();
  }

  /** Both gateways publish the same channel entry, except that an app stored with an empty
      analytics revision shows it only on the Modal side. */
  lemma PublicViewsAgree(m: Manifest, urls: map<Channel, string>, f: FailoverManifest, c: Channel)
    requires ValidManifest(m) && Mirrors(m, urls, f)
    ensures PublicReference(f.channels[c]) == PublicApp(ChannelApp(m, c))
       <==> ChannelApp(m, c).None?
            || (ChannelApp(m, c).value.minimumRevision != Some("") && ChannelApp(m, c).value.databaseRevision != Some(""))
  {
  }
}
