/** How an app moves through the channels: it is tried on the frontier, and only a promotion makes it
    current. */
module RolloutHistories {
  import opened Common
  import opened ReleaseManifests
  import opened ReleaseHistories

  /** The update puts a new app on some channel. */
  predicate Deploying(u: Update) {
    u.Deploy? && !u.config.target.ToNone?
  }

  /** A frontier release that moves the old frontier to current. */
  predicate Promoting(u: Update) {
    u.Deploy? && u.config.target.ToFrontier? && u.config.promote
  }

  /** The channels after one update, by its target. */
  lemma ChannelsAfter(m: Manifest, u: Update)
    ensures var m' := Apply(m, u);
            && (!Deploying(u) ==> m'.current == m.current && m'.frontier == m.frontier)
            && (Deploying(u) && u.config.target.ToFrontier? ==>
                  m'.frontier == Some(u.app) && m'.current == if u.config.promote then m.frontier else m.current)
            && (Deploying(u) && u.config.target.ToCurrent? ==> m'.current == Some(u.app) && m'.frontier == None)
            && (Deploying(u) && u.config.target.ToBoth? ==> m'.current == Some(u.app) && m'.frontier == Some(u.app))
  {
  }

  lemma AfterNext(m: Manifest, updates: seq<Update>, k: nat)
    requires k < |updates|
    ensures After(m, updates[..k + 1]) == Apply(After(m, updates[..k]), updates[k])
  {
    assert updates[..k + 1][..k] == updates[..k];
  }

  /** Only prunes and releases that deploy nothing lie between i and j. */
  predicate Quiet(updates: seq<Update>, i: nat, j: nat) {
    forall k :: i < k < j && k < |updates| ==> !Deploying(updates[k])
  }

  /** The app leaves no trace in the channels and is deployed by the i-th update only. */
  ghost predicate OnlyReleasedAt(m: Manifest, updates: seq<Update>, i: nat, a: App) {
    && i < |updates| && Deploying(updates[i]) && updates[i].app == a
    && m.current != Some(a) && m.frontier != Some(a)
    && forall k :: 0 <= k < |updates| && k != i && Deploying(updates[k]) ==> updates[k].app != a
  }

  /** Before its release an app serves no channel. */
  lemma {:induction false} NotBeforeRelease(m: Manifest, updates: seq<Update>, i: nat, a: App, k: nat)
    requires OnlyReleasedAt(m, updates, i, a) && k <= i
    ensures After(m, updates[..k]).current != Some(a) && After(m, updates[..k]).frontier != Some(a)
  {
    if k > 0 {
      NotBeforeRelease(m, updates, i, a, k - 1);
      AfterNext(m, updates, k - 1);
      ChannelsAfter(After(m, updates[..k - 1]), updates[k - 1]);
    }
  }

  /** A released frontier app stays on the frontier, and off current, until something is deployed. */
  lemma {:induction false} WaitsOnFrontier(m: Manifest, updates: seq<Update>, i: nat, a: App, k: nat)
    requires OnlyReleasedAt(m, updates, i, a) && updates[i].config.target.ToFrontier?
    requires i < k <= |updates| && Quiet(updates, i, k)
    ensures After(m, updates[..k]).frontier == Some(a) && After(m, updates[..k]).current != Some(a)
  {
    AfterNext(m, updates, k - 1);
    ChannelsAfter(After(m, updates[..k - 1]), updates[k - 1]);
    if k == i + 1 {
      NotBeforeRelease(m, updates, i, a, i);
    } else {
      WaitsOnFrontier(m, updates, i, a, k - 1);
    }
  }

  /** Once it has left both channels it does not come back. */
  lemma {:induction false} GoneForGood(m: Manifest, updates: seq<Update>, i: nat, a: App, k: nat, j: nat)
    requires OnlyReleasedAt(m, updates, i, a) && i < k <= j <= |updates|
    requires After(m, updates[..k]).current != Some(a) && After(m, updates[..k]).frontier != Some(a)
    ensures After(m, updates[..j]).current != Some(a)
    ensures After(m, updates[..j]).frontier != Some(a)
  {
    if k < j {
      GoneForGood(m, updates, i, a, k, j - 1);
      AfterNext(m, updates, j - 1);
      ChannelsAfter(After(m, updates[..j - 1]), updates[j - 1]);
    }
  }

  /** The first deploying update between i and j, or j when there is none. */
  lemma {:induction false} FirstDeploying(updates: seq<Update>, i: nat, j: nat) returns (q: nat)
    requires i < j <= |updates|
    ensures i < q <= j && Quiet(updates, i, q) && (q < j ==> Deploying(updates[q]))
    decreases j
  {
    if j == i + 1 {
      q := j;
    } else {
      q := FirstDeploying(updates, i, j - 1);
      if q == j - 1 && !Deploying(updates[q]) {
        q := j;
      }
    }
  }

  /** An app released to the frontier becomes current only by promotion: when it is current after j
      updates, the first deployment after its own release is a promoting frontier release. */
  lemma CurrentOnlyByPromotion(m: Manifest, updates: seq<Update>, i: nat, a: App, j: nat) returns (q: nat)
    requires OnlyReleasedAt(m, updates, i, a) && updates[i].config.target.ToFrontier?
    requires i < j <= |updates| && After(m, updates[..j]).current == Some(a)
    ensures i < q < j && Promoting(updates[q]) && Quiet(updates, i, q)
  {
    q := FirstDeploying(updates, i, j);
    WaitsOnFrontier(m, updates, i, a, q);
    assert q < j;
    AfterNext(m, updates, q);
    ChannelsAfter(After(m, updates[..q]), updates[q]);
    if !Promoting(updates[q]) {
      GoneForGood(m, updates, i, a, q + 1, j);
    }
  }

  /** And that promotion does make it current. */
  lemma PromotionMakesCurrent(m: Manifest, updates: seq<Update>, i: nat, a: App, q: nat)
    requires OnlyReleasedAt(m, updates, i, a) && updates[i].config.target.ToFrontier?
    requires i < q < |updates| && Promoting(updates[q]) && Quiet(updates, i, q)
    ensures After(m, updates[..q + 1]).current == Some(a)
  {
    WaitsOnFrontier(m, updates, i, a, q);
    AfterNext(m, updates, q);
    ChannelsAfter(After(m, updates[..q]), updates[q]);
  }
}
