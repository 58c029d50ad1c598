/** What holds over whole histories of releases, deferred cleanups and prunes. */
module ReleaseHistories {
  import opened Common
  import opened ReleaseManifests

  /** One update of the stored manifest. */
  datatype Update =
    | Deploy(config: ReleaseConfig, app: App, at: string)
    | PruneApps(names: set<string>)

  function Apply(m: Manifest, u: Update): Manifest {
    match u
    case Deploy(config, app, at) => Release(m, config, Some(app), at)
    case PruneApps(names) => Prune(m, names)
  }

  function After(m: Manifest, updates: seq<Update>): Manifest {
    if updates == [] then m else Apply(After(m, updates[..|updates| - 1]), updates[|updates| - 1])
  }

  // ----- conservation -----

  function InChannel(a: Option<App>, x: App): nat {
    if a == Some(x) then 1 else 0
  }

  function InRetired(retired: seq<Retired>, x: App): nat {
    if retired == [] then 0
    else
      var last := retired[|retired| - 1];
      InRetired(retired[..|retired| - 1], x) + if last.app == x then 1 else 0
  }

  /** How often the manifest names an app reference, over current, frontier and retired. */
  function Copies(m: Manifest, x: App): nat {
    InChannel(m.current, x) + InChannel(m.frontier, x) + InRetired(m.retired, x)
  }

  /** How often an update deploys an app reference: twice when it takes both channels. */
  function Deploys(u: Update, x: App): nat {
    if u.PruneApps? || u.app != x || u.config.target.ToNone? then 0 else if u.config.target.ToBoth? then 2 else 1
  }

  /** How many retired entries of an app reference an update removes. */
  function Prunes(m: Manifest, u: Update, x: App): nat {
    if u.PruneApps? && x.name in u.names then InRetired(m.retired, x) else 0
  }

  lemma RetireEntryAdds(retired: seq<Retired>, entry: Option<App>, at: string, reason: Reason, x: App)
    ensures InRetired(RetireEntry(retired, entry, at, reason), x) == InRetired(retired, x) + InChannel(entry, x)
  {
    if entry.Some? {
      assert (retired + [Retired(entry.value, Some(at), Some(reason))])[..|retired|] == retired;
    }
  }

  lemma TwoRetire(retired: seq<Retired>, first: Option<App>, second: Option<App>, at: string, why: Reason, why': Reason, x: App)
    ensures InRetired(RetireEntry(RetireEntry(retired, first, at, why), second, at, why'), x)
         == InRetired(retired, x) + InChannel(first, x) + InChannel(second, x)
  {
    RetireEntryAdds(retired, first, at, why, x);
    RetireEntryAdds(RetireEntry(retired, first, at, why), second, at, why', x);
  }

  lemma FrontierConserves(m: Manifest, promote: bool, cleanup: CleanupTarget, app: App, at: string, x: App)
    ensures Copies(Release(m, ReleaseConfig(ToFrontier, promote, cleanup), Some(app), at), x)
         == Copies(m, x) + if app == x then 1 else 0
  {
    if promote {
      RetireEntryAdds(m.retired, m.current, at, ReplacedCurrent, x);
    } else {
      RetireEntryAdds(m.retired, m.frontier, at, ReplacedFrontier, x);
    }
  }

  lemma CurrentConserves(m: Manifest, promote: bool, cleanup: CleanupTarget, app: App, at: string, x: App)
    ensures Copies(Release(m, ReleaseConfig(ToCurrent, promote, cleanup), Some(app), at), x)
         == Copies(m, x) + if app == x then 1 else 0
  {
    TwoRetire(m.retired, m.current, m.frontier, at, ReplacedCurrent, FrontierCleared, x);
  }

  lemma BothConserves(m: Manifest, promote: bool, cleanup: CleanupTarget, app: App, at: string, x: App)
    ensures Copies(Release(m, ReleaseConfig(ToBoth, promote, cleanup), Some(app), at), x)
         == Copies(m, x) + if app == x then 2 else 0
  {
    TwoRetire(m.retired, m.current, m.frontier, at, ReplacedCurrent, ReplacedFrontier, x);
  }

  /** A release loses no app: current, frontier and retired together gain exactly the new app, and
      gain it twice when it takes both channels. */
  lemma ReleaseConserves(m: Manifest, config: ReleaseConfig, app: App, at: string, x: App)
    ensures Copies(Release(m, config, Some(app), at), x) == Copies(m, x) + Deploys(Deploy(config, app, at), x)
  {
    match config.target {
      case ToNone =>
      case ToFrontier => FrontierConserves(m, config.promote, config.cleanup, app, at, x);
      case ToCurrent => CurrentConserves(m, config.promote, config.cleanup, app, at, x);
      case ToBoth => BothConserves(m, config.promote, config.cleanup, app, at, x);
    }
  }

  /** The retired history only grows in a release: each app that left a channel is appended, with
      the time of the release and the reason that fits the channel it left. */
  lemma RetiredHistoryGrows(m: Manifest, config: ReleaseConfig, app: App, at: string)
    ensures var m' := Release(m, config, Some(app), at);
            && m.retired <= m'.retired
            && forall i :: |m.retired| <= i < |m'.retired| ==>
                 var r := m'.retired[i];
                 && r.at == Some(at)
                 && r.reason.Some?
                 && (if r.reason == Some(ReplacedCurrent) then m.current else m.frontier) == Some(r.app)
                 && (r.reason == Some(FrontierCleared) ==> m'.frontier.None?)
  {
  }

  /** A prune removes every retired entry of a listed name and nothing else. */
  lemma {:induction false} PruneRemovesListed(retired: seq<Retired>, names: set<string>, x: App)
    ensures InRetired(KeepUnlisted(retired, names), x) == if x.name in names then 0 else InRetired(retired, x)
  {
    if retired != [] {
      var n := |retired| - 1;
      PruneRemovesListed(retired[..n], names, x);
      var kept := KeepUnlisted(retired[..n], names);
      assert (kept + [retired[n]])[..|kept|] == kept;
    }
  }

  function TotalDeploys(updates: seq<Update>, x: App): nat {
    if updates == [] then 0
    else TotalDeploys(updates[..|updates| - 1], x) + Deploys(updates[|updates| - 1], x)
  }

  function TotalPrunes(m: Manifest, updates: seq<Update>, x: App): nat {
    if updates == [] then 0
    else
      var n := |updates| - 1;
      TotalPrunes(m, updates[..n], x) + Prunes(After(m, updates[..n]), updates[n], x)
  }

  /** Over any history, what was there plus what was deployed is what is still there plus what was
      pruned, app by app: every deployed app is active, retired or pruned. */
  lemma {:induction false} NothingIsLost(m: Manifest, updates: seq<Update>, x: App)
    ensures Copies(m, x) + TotalDeploys(updates, x) == Copies(After(m, updates), x) + TotalPrunes(m, updates, x)
  {
    if updates != [] {
      var n := |updates| - 1;
      var before := After(m, updates[..n]);
      NothingIsLost(m, updates[..n], x);
      match updates[n] {
        case Deploy(config, app, at) => ReleaseConserves(before, config, app, at, x);
        case PruneApps(names) => PruneRemovesListed(before.retired, names, x);
      }
    }
  }

  // ----- deferred cleanup -----

  /** The names an update can make active. */
  function NewNames(u: Update): set<string> {
    if u.Deploy? && u.config.DeploysNewApp() then {u.app.name} else {}
  }

  lemma ActiveComesFrom(m: Manifest, u: Update)
    ensures ActiveNames(Apply(m, u)) <= ActiveNames(m) + NewNames(u)
  {
  }

  /** A cleanup list never names an app that is active in its manifest, nor in any manifest reached
      later, however many releases and prunes the deferred job is late, as long as no release
      reuses a listed name. */
  lemma {:induction false} LateCleanupIsSafe(m: Manifest, target: CleanupTarget, previous: Option<Manifest>,
                                             names: seq<string>, updates: seq<Update>)
    requires CleanupNames(m, target, previous, names)
    requires forall u <- updates, n <- names :: n !in NewNames(u)
    ensures forall n <- names :: n !in ActiveNames(After(m, updates))
  {
    if updates != [] {
      var k := |updates| - 1;
      LateCleanupIsSafe(m, target, previous, names, updates[..k]);
      ActiveComesFrom(After(m, updates[..k]), updates[k]);
      assert updates[k] in updates;
    }
  }

  lemma NewNamesAreActive(m: Manifest, u: Update)
    ensures NewNames(u) <= ActiveNames(Apply(m, u))
  {
  }

  /** No listed name is active after any of the updates. */
  ghost predicate NeverActive(m: Manifest, names: seq<string>, updates: seq<Update>) {
    forall k, n :: 0 <= k <= |updates| && n in names ==> n !in ActiveNames(After(m, updates[..k]))
  }

  /** A cleanup list stays safe throughout a history if and only if no release in it reuses a
      listed name. */
  lemma LateCleanupIsSafeExactly(m: Manifest, target: CleanupTarget, previous: Option<Manifest>,
                                 names: seq<string>, updates: seq<Update>)
    requires CleanupNames(m, target, previous, names)
    ensures NeverActive(m, names, updates) <==> forall u <- updates, n <- names :: n !in NewNames(u)
  {
    if NeverActive(m, names, updates) {
      forall u, n | u in updates && n in names ensures n !in NewNames(u) {
        var k :| 0 <= k < |updates| && updates[k] == u;
        assert updates[..k + 1][..k] == updates[..k];
        NewNamesAreActive(After(m, updates[..k]), u);
        assert n !in ActiveNames(After(m, updates[..k + 1]));
      }
    } else {
      var k, n :| 0 <= k <= |updates| && n in names && n in ActiveNames(After(m, updates[..k]));
      if forall u <- updates, n <- names :: n !in NewNames(u) {
        LateCleanupIsSafe(m, target, previous, names, updates[..k]);
      }
    }
  }

  lemma {:induction false} RetiredAppIsListed(retired: seq<Retired>, x: App)
    requires InRetired(retired, x) > 0
    ensures exists r <- retired :: r.app == x
  {
    var n := |retired| - 1;
    if retired[n].app == x {
      assert retired[n] in retired;
    } else {
      RetiredAppIsListed(retired[..n], x);
      var r :| r in retired[..n] && r.app == x;
      assert r in retired;
    }
  }

  /** An app reference that leaves the channels in a release is in the retired list afterwards. */
  lemma LeavingAppIsRetired(m: Manifest, config: ReleaseConfig, app: App, at: string, x: App)
    requires m.current == Some(x) || m.frontier == Some(x)
    requires var m' := Release(m, config, Some(app), at); m'.current != Some(x) && m'.frontier != Some(x)
    ensures exists r <- Release(m, config, Some(app), at).retired :: r.app == x
  {
    ReleaseConserves(m, config, app, at, x);
    RetiredAppIsListed(Release(m, config, Some(app), at).retired, x);
  }

  /** Cleaning a channel against the manifest before a release never names more than cleaning
      everything retired after it. */
  lemma ReplacedChannelIsRetired(m: Manifest, config: ReleaseConfig, app: App, at: string, target: CleanupTarget,
                                 names: seq<string>, retiredNames: seq<string>)
    requires target.CleanCurrent? || target.CleanFrontier?
    requires var m' := Release(m, config, Some(app), at);
             CleanupNames(m', target, Some(m), names) && CleanupNames(m', CleanRetired, None, retiredNames)
    ensures forall n <- names :: n in retiredNames
  {
    var channel := TargetChannel(m, target);
    if channel.Some? {
      LeavingAppIsRetired(m, config, app, at, channel.value);
    }
  }

  /** The whole cycle: what a cleanup list names, pruned any number of updates later, leaves every
      app reference the channels then serve exactly where it was. */
  lemma CleanupCycleKeepsActive(m: Manifest, names: seq<string>, updates: seq<Update>, x: App)
    requires CleanupNames(m, CleanRetired, None, names)
    requires forall u <- updates, n <- names :: n !in NewNames(u)
    ensures var late := After(m, updates);
            var pruned := Prune(late, set n | n in names);
            && pruned.current == late.current && pruned.frontier == late.frontier
            && (x.name in ActiveNames(late) ==> Copies(pruned, x) == Copies(late, x))
  {
    LateCleanupIsSafe(m, CleanRetired, None, names, updates);
    PruneRemovesListed(After(m, updates).retired, (set n | n in names), x);
  }
}
