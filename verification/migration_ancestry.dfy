/** The worklist search over the migration graph that decides whether one revision descends from
    another. */
module MigrationAncestry {
  import opened Common

  /** What the script directory answers for an identifier: a revision, nothing, or an exception. */
  datatype Lookup = Resolved(revision: string) | Absent | Raises

  /** A revision's `down_revision` attribute. */
  datatype Down = NoParent | OneParent(id: string) | Merge(ids: seq<string>)

  /** The script directory: how identifiers resolve, and the parents of each revision. */
  datatype Script = Script(resolve: map<string, Lookup>, down: map<string, Down>) {
    ghost predicate Valid() {
      forall id <- resolve :: resolve[id].Resolved? ==> resolve[id].revision in down
    }

    function Get(id: string): Lookup {
      if id in resolve then resolve[id] else Raises
    }
  }

  function DownRevisions(down: Down): seq<string> {
    match down
    case NoParent => []
    case OneParent(id) => [id]
    case Merge(ids) => ids
  }

  /** The identifier is one of a revision's parents: the only one, or one of a merge. */
  predicate IsParent(down: Down, id: string) {
    down == OneParent(id) || (down.Merge? && id in down.ids)
  }

  lemma DownRevisionsAreParents(down: Down)
    ensures forall id :: id in DownRevisions(down) <==> IsParent(down, id)
  {
  }

  /** `parent` is a resolved parent of `child`. */
  ghost predicate Edge(script: Script, child: string, parent: string)
    requires script.Valid()
  {
    child in script.down && exists id :: IsParent(script.down[child], id) && script.Get(id) == Resolved(parent)
  }

  ghost predicate IsPath(script: Script, path: seq<string>)
    requires script.Valid()
  {
    forall i :: 0 <= i < |path| - 1 ==> Edge(script, path[i], path[i + 1])
  }

  ghost predicate Reaches(script: Script, from: string, to: string)
    requires script.Valid()
  {
    exists path :: path != [] && path[0] == from && path[|path| - 1] == to && IsPath(script, path)
  }

  /** Some parent of the revision cannot be looked up. */
  ghost predicate Broken(script: Script, revision: string) {
    revision in script.down && exists id :: IsParent(script.down[revision], id) && script.Get(id).Raises?
  }

  lemma ReachesSelf(script: Script, revision: string)
    requires script.Valid()
    ensures Reaches(script, revision, revision)
  {
    assert IsPath(script, [revision]);
  }

  lemma ReachesStep(script: Script, from: string, child: string, parent: string)
    requires script.Valid() && Reaches(script, from, child) && Edge(script, child, parent)
    ensures Reaches(script, from, parent)
  {
    var path :| path != [] && path[0] == from && path[|path| - 1] == child && IsPath(script, path);
    var longer := path + [parent];
    forall i | 0 <= i < |longer| - 1 ensures Edge(script, longer[i], longer[i + 1]) {
      assert i < |path| - 1 ==> Edge(script, path[i], path[i + 1]);
    }
    assert IsPath(script, longer) && longer[0] == from && longer[|longer| - 1] == parent;
  }

  /** A set that contains every resolved parent of its members contains everything they reach. */
  lemma {:induction false} ClosedUnderPaths(script: Script, s: set<string>, path: seq<string>, n: nat)
    requires script.Valid() && IsPath(script, path) && n < |path| && path[0] in s
    requires forall r <- s, parent :: Edge(script, r, parent) ==> parent in s
    ensures path[n] in s
  {
    if n > 0 {
      ClosedUnderPaths(script, s, path, n - 1);
      assert Edge(script, path[n - 1], path[n]);
    }
  }

  /** The names a search can ever meet: those the directory resolves to, and the start. */
  ghost function Universe(script: Script, current: string): set<string> {
    {current} + set id | id in script.resolve && script.resolve[id].Resolved? :: script.resolve[id].revision
  }

  /** What the loop knows: everything met is reachable; what has been seen is not the minimum, and
      its parents have been met. */
  ghost predicate Explored(script: Script, current: string, minimum: string, pending: seq<string>, seen: set<string>)
    requires script.Valid()
  {
    && (forall r <- seen :: r != minimum && Reaches(script, current, r) && r in Universe(script, current))
    && (forall r <- pending :: r in script.down && Reaches(script, current, r) && r in Universe(script, current))
    && (forall r <- seen, parent :: Edge(script, r, parent) ==> parent in seen || parent in pending)
    && (current in seen || current in pending)
  }

  /** The inner loop: push the resolved parents of one revision, or give up at the first parent
      whose lookup raises. */
  method PushParents(script: Script, revision: string, pending: seq<string>) returns (ok: bool, pending': seq<string>)
    requires script.Valid() && revision in script.down
    ensures !ok ==> Broken(script, revision)
    ensures ok ==> forall r :: r in pending' <==> r in pending || Edge(script, revision, r)
  {
    pending' := pending;
    var ids := DownRevisions(script.down[revision]);
    DownRevisionsAreParents(script.down[revision]);
    for i := 0 to |ids|
      invariant forall r :: r in pending' <==>
                            r in pending || exists j :: 0 <= j < i && script.Get(ids[j]) == Resolved(r)
    {
      var parent := script.Get(ids[i]);
      assert ids[i] in ids;
      if parent.Raises? {
        return false, pending';
      }
      if parent.Resolved? {
        pending' := pending' + [parent.revision];
      }
    }
    return true, pending';
  }

  lemma EdgeResolves(script: Script, current: string, child: string, parent: string)
    requires script.Valid() && Edge(script, child, parent)
    ensures parent in script.down && parent in Universe(script, current)
  {
  }

  lemma ExploredStep(script: Script, current: string, minimum: string, revision: string,
                     before: seq<string>, seen: set<string>, pending': seq<string>)
    requires script.Valid() && Explored(script, current, minimum, before, seen)
    requires revision in before && revision != minimum
    requires forall r <- before :: r == revision || r in pending'
    requires forall r <- pending' :: r in before || Edge(script, revision, r)
    requires forall r :: Edge(script, revision, r) ==> r in pending'
    ensures Explored(script, current, minimum, pending', seen + {revision})
  {
    forall r <- pending' ensures r in script.down && Reaches(script, current, r) && r in Universe(script, current) {
      if r !in before {
        EdgeResolves(script, current, revision, r);
        ReachesStep(script, current, revision, r);
      }
    }
  }

  lemma ExploredAll(script: Script, current: string, minimum: string, seen: set<string>)
    requires script.Valid() && Explored(script, current, minimum, [], seen)
    ensures !Reaches(script, current, minimum)
  {
    if Reaches(script, current, minimum) {
      var path :| path != [] && path[0] == current && path[|path| - 1] == minimum && IsPath(script, path);
      ClosedUnderPaths(script, seen, path, |path| - 1);
    }
  }

  /** `_known_revision_descends_from`. The answer is true only for a reachable minimum, and false
      for a reachable one only when some reachable revision has a parent that cannot be looked up. */
  method KnownRevisionDescendsFrom(script: Script, currentId: string, minimumId: string) returns (descends: bool)
    requires script.Valid()
    ensures descends ==>
              && script.Get(currentId).Resolved? && script.Get(minimumId).Resolved?
              && Reaches(script, script.Get(currentId).revision, script.Get(minimumId).revision)
    ensures !descends && script.Get(currentId).Resolved? && script.Get(minimumId).Resolved? ==>
              || !Reaches(script, script.Get(currentId).revision, script.Get(minimumId).revision)
              || exists r :: Reaches(script, script.Get(currentId).revision, r) && Broken(script, r)
    ensures && script.Get(currentId).Resolved? && script.Get(minimumId).Resolved?
            && (forall r :: Reaches(script, script.Get(currentId).revision, r) ==> !Broken(script, r))
            ==> (descends <==> Reaches(script, script.Get(currentId).revision, script.Get(minimumId).revision))
  {
    var found, least := script.Get(currentId), script.Get(minimumId);
    if !found.Resolved? || !least.Resolved? {
      return false;
    }
    var current, minimum := found.revision, least.revision;
    ReachesSelf(script, current);
    var pending, seen := [current], {};
    while pending != []
      invariant Explored(script, current, minimum, pending, seen)
      decreases Universe(script, current) - seen, |pending|
    {
      ghost var before := pending;
      var revision := pending[|pending| - 1];
      pending := pending[..|pending| - 1];
      assert forall r :: r in before <==> r in pending || r == revision;
      if revision == minimum {
        return true;
      }
      if revision in seen {
        continue;
      }
      var ok, pushed := PushParents(script, revision, pending);
      if !ok {
        return false;
      }
      ExploredStep(script, current, minimum, revision, before, seen, pushed);
      pending, seen := pushed, seen + {revision};
    }
    ExploredAll(script, current, minimum, seen);
    return false;
  }
}
