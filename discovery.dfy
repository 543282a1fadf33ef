/**
 * The dependency-aware deletion-order engine (src/awscleanup/core/discovery.py):
 * `_build_dependency_map` rewrites every resource's `dependents` list from the
 * one-directional `dependencies` of the whole catalog, and `get_deletion_order`
 * peels the selection round by round, dependents first, forcing the head of the
 * remaining list out when a round finds nothing eligible.
 *
 * Resources are objects (their `dependents` field is updated in place); the
 * engine keys them on `identifier`.
 */
module Discovery {
  import opened Wrappers
  import opened Exceptions
  import opened Models

  // ================================================================ catalog facts

  /** `{r.identifier for r in rs}`. */
  function Ids(rs: seq<Resource>): set<string> {
    set r | r in rs :: r.identifier
  }

  /** `[r.identifier for r in rs]`. */
  function IdList(rs: seq<Resource>): (ids: seq<string>)
    ensures |ids| == |rs|
    ensures forall i :: 0 <= i < |rs| ==> ids[i] == rs[i].identifier
    ensures forall id :: id in ids <==> id in Ids(rs)
  {
    if rs == [] then [] else [rs[0].identifier] + IdList(rs[1..])
  }

  /** No two positions of the list carry the same identifier (so no object appears twice either). */
  predicate UniqueIds(rs: seq<Resource>) {
    forall i, j :: 0 <= i < j < |rs| ==> rs[i].identifier != rs[j].identifier
  }

  lemma SameIdentifierSameObject(rs: seq<Resource>, a: Resource, b: Resource)
    requires UniqueIds(rs) && a in rs && b in rs && a.identifier == b.identifier
    ensures a == b
  {
    var i :| 0 <= i < |rs| && rs[i] == a;
    var j :| 0 <= j < |rs| && rs[j] == b;
    assert !(i < j) && !(j < i);
  }

  // ================================================================ dependency map

  /** `{r.identifier: r for r in resources}`: a later resource with the same identifier wins. */
  function ResourceMap(rs: seq<Resource>): (m: map<string, Resource>)
    ensures m.Keys == Ids(rs)
    ensures forall id :: id in m ==> m[id] in rs && m[id].identifier == id
  {
    if rs == [] then map[]
    else
      var m := ResourceMap(rs[..|rs| - 1]);
      assert forall r :: r in rs[..|rs| - 1] ==> r in rs;
      assert rs == rs[..|rs| - 1] + [rs[|rs| - 1]];
      m[rs[|rs| - 1].identifier := rs[|rs| - 1]]
  }

  /** The lookup table resolves every identifier to the LAST resource that carries it. */
  lemma {:induction false} ResourceMapKeepsLast(rs: seq<Resource>, i: nat)
    requires i < |rs|
    requires forall j :: i < j < |rs| ==> rs[j].identifier != rs[i].identifier
    ensures ResourceMap(rs)[rs[i].identifier] == rs[i]
  {
    if i < |rs| - 1 {
      var front := rs[..|rs| - 1];
      forall j | i < j < |front| ensures front[j].identifier != front[i].identifier {
        assert front[j] == rs[j];
      }
      ResourceMapKeepsLast(front, i);
    }
  }

  /**
   * What the inner loop over `deps` appends to the `dependents` of `target`:
   * one `id` for each dependency the lookup table resolves to `target`.
   */
  function Mentions(id: string, deps: seq<string>, m: map<string, Resource>, target: Resource): seq<string> {
    if deps == [] then []
    else
      var d := deps[|deps| - 1];
      Mentions(id, deps[..|deps| - 1], m, target) + (if d in m && m[d] == target then [id] else [])
  }

  /** What the outer loop, having visited `visited`, has appended to the `dependents` of `target`. */
  function Accumulated(visited: seq<Resource>, m: map<string, Resource>, target: Resource): seq<string> {
    if visited == [] then []
    else
      var r := visited[|visited| - 1];
      Accumulated(visited[..|visited| - 1], m, target) + Mentions(r.identifier, r.dependencies, m, target)
  }

  /** The `dependents` list of `target` after `_build_dependency_map(catalog)`. */
  function RebuiltDependents(catalog: seq<Resource>, target: Resource): seq<string> {
    Accumulated(catalog, ResourceMap(catalog), target)
  }

  /**
   * `_build_dependency_map`: clears every `dependents` list, then appends each
   * resource's identifier to the list of every dependency found in the catalog.
   * The new lists depend on the catalog alone, not on what the lists held before,
   * so a second call on an unchanged catalog leaves them as the first call did.
   */
  method BuildDependencyMap(resources: seq<Resource>)
    modifies resources
    ensures forall o :: o in resources ==> o.dependents == RebuiltDependents(resources, o)
  {
    var resourceMap := ResourceMap(resources);

    for i := 0 to |resources|
      invariant forall o :: o in resources[..i] ==> o.dependents == []
    {
      resources[i].dependents := [];
      assert resources[..i + 1] == resources[..i] + [resources[i]];
    }
    assert resources[..|resources|] == resources;

    for i := 0 to |resources|
      invariant forall o :: o in resources ==> o.dependents == Accumulated(resources[..i], resourceMap, o)
    {
      RecordDependent(resources, resourceMap, resources[i]);
      AccumulatedStep(resources, i, resourceMap);
    }
    assert resources[..|resources|] == resources;
  }

  /** The inner loop: `resource.identifier` goes onto the list of each dependency found in the table. */
  method RecordDependent(resources: seq<Resource>, resourceMap: map<string, Resource>, resource: Resource)
    requires forall id :: id in resourceMap ==> resourceMap[id] in resources
    modifies resources
    ensures forall o :: o in resources ==>
              o.dependents == old(o.dependents) + Mentions(resource.identifier, resource.dependencies, resourceMap, o)
  {
    for k := 0 to |resource.dependencies|
      invariant forall o :: o in resources ==>
                  o.dependents == old(o.dependents) + Mentions(resource.identifier, resource.dependencies[..k], resourceMap, o)
    {
      var depId := resource.dependencies[k];
      MentionsStep(resource.identifier, resource.dependencies, k, resourceMap);
      if depId in resourceMap {
        var target := resourceMap[depId];
        target.dependents := target.dependents + [resource.identifier];
      }
    }
    assert resource.dependencies[..|resource.dependencies|] == resource.dependencies;
  }

  lemma MentionsStep(id: string, deps: seq<string>, k: nat, m: map<string, Resource>)
    requires k < |deps|
    ensures forall target ::
              Mentions(id, deps[..k + 1], m, target)
              == Mentions(id, deps[..k], m, target) + (if deps[k] in m && m[deps[k]] == target then [id] else [])
  {
    assert deps[..k + 1][..k] == deps[..k];
  }

  lemma AccumulatedStep(rs: seq<Resource>, i: nat, m: map<string, Resource>)
    requires i < |rs|
    ensures forall target ::
              Accumulated(rs[..i + 1], m, target)
              == Accumulated(rs[..i], m, target) + Mentions(rs[i].identifier, rs[i].dependencies, m, target)
  {
    assert rs[..i + 1][..i] == rs[..i];
  }

  // ---------------------------------------------------------------- what the lists hold

  function Repeat(x: string, n: nat): (r: seq<string>)
    ensures |r| == n && forall k :: 0 <= k < n ==> r[k] == x
  {
    if n == 0 then [] else [x] + Repeat(x, n - 1)
  }

  /**
   * Reference definition of a rebuilt list: walking the catalog in order, each
   * resource's identifier once for every time `targetId` occurs among its dependencies.
   */
  function ExpectedDependents(catalog: seq<Resource>, targetId: string): seq<string> {
    if catalog == [] then []
    else
      var r := catalog[|catalog| - 1];
      ExpectedDependents(catalog[..|catalog| - 1], targetId) + Repeat(r.identifier, multiset(r.dependencies)[targetId])
  }

  /** With distinct identifiers, the table resolves `d` to `target` exactly when `d` is its identifier. */
  lemma ResolvesToTarget(catalog: seq<Resource>, target: Resource, d: string)
    requires UniqueIds(catalog) && target in catalog
    ensures (d in ResourceMap(catalog) && ResourceMap(catalog)[d] == target) <==> d == target.identifier
  {
    var m := ResourceMap(catalog);
    if d == target.identifier {
      SameIdentifierSameObject(catalog, m[d], target);
    }
  }

  /** A table that resolves exactly `target`'s identifier to `target`. */
  ghost predicate ResolvesOnlyOwnId(m: map<string, Resource>, target: Resource) {
    forall d :: d in m && m[d] == target <==> d == target.identifier
  }

  lemma {:induction false} MentionsCount(id: string, deps: seq<string>, m: map<string, Resource>, target: Resource)
    requires ResolvesOnlyOwnId(m, target)
    ensures Mentions(id, deps, m, target) == Repeat(id, multiset(deps)[target.identifier])
  {
    if deps != [] {
      var front := deps[..|deps| - 1];
      MentionsCount(id, front, m, target);
      CountLast(deps, target.identifier);
      RepeatSnoc(id, multiset(front)[target.identifier]);
    }
  }

  lemma CountLast(deps: seq<string>, y: string)
    requires deps != []
    ensures multiset(deps)[y] == multiset(deps[..|deps| - 1])[y] + if deps[|deps| - 1] == y then 1 else 0
  {
    assert deps == deps[..|deps| - 1] + [deps[|deps| - 1]];
  }

  lemma RepeatSnoc(x: string, n: nat)
    ensures Repeat(x, n) + [x] == Repeat(x, n + 1)
  {
  }

  lemma MentionsAreRepeats(id: string, deps: seq<string>, catalog: seq<Resource>, target: Resource)
    requires UniqueIds(catalog) && target in catalog
    ensures Mentions(id, deps, ResourceMap(catalog), target) == Repeat(id, multiset(deps)[target.identifier])
  {
    forall d ensures d in ResourceMap(catalog) && ResourceMap(catalog)[d] == target <==> d == target.identifier {
      ResolvesToTarget(catalog, target, d);
    }
    MentionsCount(id, deps, ResourceMap(catalog), target);
  }

  lemma {:induction false} AccumulatedIsExpected(visited: seq<Resource>, catalog: seq<Resource>, target: Resource)
    requires UniqueIds(catalog) && target in catalog
    ensures Accumulated(visited, ResourceMap(catalog), target) == ExpectedDependents(visited, target.identifier)
  {
    if visited != [] {
      var r := visited[|visited| - 1];
      AccumulatedIsExpected(visited[..|visited| - 1], catalog, target);
      MentionsAreRepeats(r.identifier, r.dependencies, catalog, target);
    }
  }

  /**
   * After a rebuild on a catalog with distinct identifiers, each list holds its
   * dependents in catalog order, each repeated once per mention.
   */
  lemma DependentsInCatalogOrder(catalog: seq<Resource>, target: Resource)
    requires UniqueIds(catalog) && target in catalog
    ensures RebuiltDependents(catalog, target) == ExpectedDependents(catalog, target.identifier)
  {
    AccumulatedIsExpected(catalog, catalog, target);
  }

  lemma {:induction false} ExpectedCount(visited: seq<Resource>, targetId: string, x: Resource)
    requires UniqueIds(visited)
    requires x in visited || x.identifier !in Ids(visited)
    ensures multiset(ExpectedDependents(visited, targetId))[x.identifier]
            == if x in visited then multiset(x.dependencies)[targetId] else 0
  {
    if visited != [] {
      var r := visited[|visited| - 1];
      var front := visited[..|visited| - 1];
      LastIsNew(visited, x);
      ExpectedLast(visited, targetId, x.identifier);
      ExpectedCount(front, targetId, x);
    }
  }

  /** Splits a duplicate-free list into its front and its last element. */
  lemma LastIsNew(visited: seq<Resource>, x: Resource)
    requires visited != [] && UniqueIds(visited)
    requires x in visited || x.identifier !in Ids(visited)
    ensures UniqueIds(visited[..|visited| - 1])
    ensures x == visited[|visited| - 1] ==> x.identifier !in Ids(visited[..|visited| - 1])
    ensures x != visited[|visited| - 1] ==> x.identifier != visited[|visited| - 1].identifier
    ensures x in visited[..|visited| - 1] || x.identifier !in Ids(visited[..|visited| - 1])
    ensures x in visited <==> x in visited[..|visited| - 1] || x == visited[|visited| - 1]
  {
    var r := visited[|visited| - 1];
    var front := visited[..|visited| - 1];
    assert visited == front + [r];
    if x == r {
      forall y | y in front ensures y.identifier != x.identifier {
        var j :| 0 <= j < |front| && front[j] == y;
        assert visited[j] == y;
      }
    } else if x in visited {
      SameIdentifierSameObjectIfEqual(visited, r, x);
    }
  }

  /** The last resource of the list adds its own identifier, once per mention of `targetId`. */
  lemma ExpectedLast(visited: seq<Resource>, targetId: string, y: string)
    requires visited != []
    ensures multiset(ExpectedDependents(visited, targetId))[y]
            == multiset(ExpectedDependents(visited[..|visited| - 1], targetId))[y]
               + if y == visited[|visited| - 1].identifier
                 then multiset(visited[|visited| - 1].dependencies)[targetId] else 0
  {
    var r := visited[|visited| - 1];
    var n := multiset(r.dependencies)[targetId];
    if y == r.identifier {
      RepeatCount(y, n);
    } else {
      RepeatCountOther(r.identifier, n, y);
    }
  }

  lemma SameIdentifierSameObjectIfEqual(rs: seq<Resource>, a: Resource, b: Resource)
    requires UniqueIds(rs) && a in rs && b in rs && a != b
    ensures a.identifier != b.identifier
  {
    var i :| 0 <= i < |rs| && rs[i] == a;
    var j :| 0 <= j < |rs| && rs[j] == b;
    assert i != j;
  }

  lemma {:induction false} RepeatCount(x: string, n: nat)
    ensures multiset(Repeat(x, n))[x] == n
  {
    if n > 0 {
      RepeatCount(x, n - 1);
    }
  }

  lemma {:induction false} RepeatCountOther(x: string, n: nat, y: string)
    requires x != y
    ensures multiset(Repeat(x, n))[y] == 0
  {
    if n > 0 {
      RepeatCountOther(x, n - 1, y);
    }
  }

  /**
   * After a rebuild on a catalog with distinct identifiers, X's identifier occurs in
   * D's dependents exactly as often as D's identifier occurs in X's dependencies.
   */
  lemma DependentsCount(catalog: seq<Resource>, x: Resource, d: Resource)
    requires UniqueIds(catalog) && x in catalog && d in catalog
    ensures multiset(RebuiltDependents(catalog, d))[x.identifier] == multiset(x.dependencies)[d.identifier]
  {
    DependentsInCatalogOrder(catalog, d);
    ExpectedCount(catalog, d.identifier, x);
  }

  /** The two directions agree: B depends on A exactly when B is among A's rebuilt dependents. */
  lemma Bidirectional(catalog: seq<Resource>, a: Resource, b: Resource)
    requires UniqueIds(catalog) && a in catalog && b in catalog
    ensures a.identifier in b.dependencies <==> b.identifier in RebuiltDependents(catalog, a)
  {
    DependentsCount(catalog, b, a);
  }

  lemma {:induction false} MentionsConcat(id: string, a: seq<string>, b: seq<string>, m: map<string, Resource>, target: Resource)
    ensures Mentions(id, a + b, m, target) == Mentions(id, a, m, target) + Mentions(id, b, m, target)
  {
    if b == [] {
      assert a + b == a;
    } else {
      var d := b[|b| - 1];
      assert (a + b)[..|a + b| - 1] == a + b[..|b| - 1];
      MentionsConcat(id, a, b[..|b| - 1], m, target);
    }
  }

  /** A dependency that names no resource of the catalog is skipped: it adds to no list. */
  lemma DanglingDependencyIgnored(catalog: seq<Resource>, id: string, before: seq<string>, d: string,
                                  after: seq<string>, target: Resource)
    requires d !in Ids(catalog)
    ensures Mentions(id, before + [d] + after, ResourceMap(catalog), target)
            == Mentions(id, before + after, ResourceMap(catalog), target)
  {
    var m := ResourceMap(catalog);
    MentionsConcat(id, before + [d], after, m, target);
    MentionsConcat(id, before, [d], m, target);
    MentionsConcat(id, before, after, m, target);
    assert [d][..0] == [];
  }

  // ================================================================ deletion order

  /** The resource still has a dependent whose identifier is pending deletion. */
  predicate Blocked(r: Resource, pending: set<string>)
    reads r
  {
    exists d :: d in r.dependents && d in pending
  }

  /** The resources that can go in this round, in remaining order (`can_delete`). */
  function Eligible(remaining: seq<Resource>, pending: set<string>): seq<Resource>
    reads remaining
  {
    if remaining == [] then []
    else (if Blocked(remaining[0], pending) then [] else [remaining[0]]) + Eligible(remaining[1..], pending)
  }

  /** The resources that must wait for a later round. */
  function Waiting(remaining: seq<Resource>, pending: set<string>): seq<Resource>
    reads remaining
  {
    if remaining == [] then []
    else (if Blocked(remaining[0], pending) then [remaining[0]] else []) + Waiting(remaining[1..], pending)
  }

  /** A resource is placed this round exactly when none of its dependents is pending. */
  lemma {:induction false} EligibleMembers(remaining: seq<Resource>, pending: set<string>)
    ensures forall x :: x in Eligible(remaining, pending) ==> x in remaining && !Blocked(x, pending)
    ensures forall x :: x in remaining && !Blocked(x, pending) ==> x in Eligible(remaining, pending)
  {
    if remaining != [] {
      EligibleMembers(remaining[1..], pending);
      assert remaining == [remaining[0]] + remaining[1..];
    }
  }

  /** A resource waits exactly when one of its dependents is pending. */
  lemma {:induction false} WaitingMembers(remaining: seq<Resource>, pending: set<string>)
    ensures forall x :: x in Waiting(remaining, pending) <==> x in remaining && Blocked(x, pending)
  {
    if remaining != [] {
      WaitingMembers(remaining[1..], pending);
      assert remaining == [remaining[0]] + remaining[1..];
    }
  }

  /** Every remaining resource is either placed or waits, and none is both or lost. */
  lemma {:induction false} EligibleWaitingSplit(remaining: seq<Resource>, pending: set<string>)
    ensures multiset(Eligible(remaining, pending)) + multiset(Waiting(remaining, pending)) == multiset(remaining)
  {
    if remaining != [] {
      EligibleWaitingSplit(remaining[1..], pending);
      assert remaining == [remaining[0]] + remaining[1..];
    }
  }

  /** Eligibility is decided resource by resource, so the eligible list keeps remaining order. */
  lemma {:induction false} EligibleConcat(a: seq<Resource>, b: seq<Resource>, pending: set<string>)
    ensures Eligible(a + b, pending) == Eligible(a, pending) + Eligible(b, pending)
  {
    if a == [] {
      assert a + b == b;
    } else {
      assert (a + b)[0] == a[0] && (a + b)[1..] == a[1..] + b;
      EligibleConcat(a[1..], b, pending);
    }
  }

  lemma EligibleStep(remaining: seq<Resource>, i: nat, pending: set<string>)
    requires i < |remaining|
    ensures Eligible(remaining[..i + 1], pending)
            == Eligible(remaining[..i], pending) + (if Blocked(remaining[i], pending) then [] else [remaining[i]])
  {
    EligibleConcat(remaining[..i], [remaining[i]], pending);
    assert remaining[..i + 1] == remaining[..i] + [remaining[i]];
    assert [remaining[i]][1..] == [];
  }

  /** When nothing is blocked, the whole list is placed at once. */
  lemma {:induction false} NothingBlocked(remaining: seq<Resource>, pending: set<string>)
    requires forall x :: x in remaining ==> !Blocked(x, pending)
    ensures Eligible(remaining, pending) == remaining && Waiting(remaining, pending) == []
  {
    if remaining != [] {
      assert remaining[0] in remaining;
      assert forall x :: x in remaining[1..] ==> x in remaining;
      NothingBlocked(remaining[1..], pending);
      assert [remaining[0]] + remaining[1..] == remaining;
    }
  }

  /** A round with something eligible leaves fewer resources waiting, all from before. */
  lemma WaitingShrinks(remaining: seq<Resource>, pending: set<string>)
    requires Eligible(remaining, pending) != []
    ensures |Waiting(remaining, pending)| < |remaining|
    ensures var w := Waiting(remaining, pending); forall i :: 0 <= i < |w| ==> w[i] in remaining
  {
    EligibleWaitingSplit(remaining, pending);
    assert |multiset(Eligible(remaining, pending))| > 0;
    SubMultisetElements(Waiting(remaining, pending), remaining);
  }

  lemma SubMultisetElements(a: seq<Resource>, b: seq<Resource>)
    requires multiset(a) <= multiset(b)
    ensures forall i :: 0 <= i < |a| ==> a[i] in b
  {
    forall i | 0 <= i < |a| ensures a[i] in b {
      assert a[i] in multiset(a);
    }
  }

  /** The result of an ordering: the sequence, and how many cycle warnings were emitted. */
  datatype Ordering = Ordering(order: seq<Resource>, warnings: nat)

  /**
   * The greedy peel, with eligibility tested against the identifiers of the
   * remaining list: each round places every eligible resource in remaining order,
   * or, when none is eligible, the first remaining resource alone (one warning).
   */
  function DeletionOrder(remaining: seq<Resource>): Ordering
    reads remaining
    decreases |remaining|
  {
    if remaining == [] then Ordering([], 0)
    else
      var e := Eligible(remaining, Ids(remaining));
      if e != [] then
        var w := Waiting(remaining, Ids(remaining));
        WaitingShrinks(remaining, Ids(remaining));
        var rest := DeletionOrder(w);
        Ordering(e + rest.order, rest.warnings)
      else
        var rest := DeletionOrder(remaining[1..]);
        Ordering([remaining[0]] + rest.order, rest.warnings + 1)
  }

  // ---------------------------------------------------------------- removing placed resources

  /** `remaining.remove(x)`: drops the first occurrence of `x`. */
  function RemoveFirst(s: seq<Resource>, x: Resource): seq<Resource> {
    if s == [] then []
    else if s[0] == x then s[1..]
    else [s[0]] + RemoveFirst(s[1..], x)
  }

  lemma {:induction false} RemoveFirstCount(s: seq<Resource>, x: Resource)
    ensures x in s ==> multiset(RemoveFirst(s, x)) == multiset(s) - multiset{x}
    ensures x !in s ==> RemoveFirst(s, x) == s
  {
    if s != [] {
      RemoveFirstCount(s[1..], x);
      assert s == [s[0]] + s[1..];
    }
  }

  /** `for resource in placed: remaining.remove(resource)`. */
  function RemoveEach(s: seq<Resource>, placed: seq<Resource>): seq<Resource>
    decreases |placed|
  {
    if placed == [] then s else RemoveEach(RemoveFirst(s, placed[0]), placed[1..])
  }

  lemma {:induction false} RemoveEachCount(s: seq<Resource>, placed: seq<Resource>)
    requires multiset(placed) <= multiset(s)
    ensures multiset(RemoveEach(s, placed)) == multiset(s) - multiset(placed)
    decreases |placed|
  {
    if placed != [] {
      var x := placed[0];
      assert placed == [x] + placed[1..];
      assert x in multiset(s);
      RemoveFirstCount(s, x);
      assert multiset(placed[1..]) <= multiset(RemoveFirst(s, x));
      RemoveEachCount(RemoveFirst(s, x), placed[1..]);
    }
  }

  /**
   * `for resource in placed: remaining.remove(resource); remaining_ids.remove(resource.identifier)`,
   * where removing an identifier that is no longer in the set raises KeyError.
   */
  function RemovePlaced(remaining: seq<Resource>, pending: set<string>, placed: seq<Resource>)
    : Result<(seq<Resource>, set<string>), Error>
    decreases |placed|
  {
    if placed == [] then Success((remaining, pending))
    else
      var x := placed[0];
      var rest := RemoveFirst(remaining, x);
      if x.identifier !in pending then Failure(KeyError(x.identifier))
      else RemovePlaced(rest, pending - {x.identifier}, placed[1..])
  }

  lemma {:induction false} RemovePlacedIsRemoveEach(remaining: seq<Resource>, pending: set<string>, placed: seq<Resource>)
    ensures RemovePlaced(remaining, pending, placed).Success? ==>
              RemovePlaced(remaining, pending, placed).value.0 == RemoveEach(remaining, placed)
              && |RemovePlaced(remaining, pending, placed).value.1| == |pending| - |placed|
    decreases |placed|
  {
    if placed != [] && placed[0].identifier in pending {
      RemovePlacedIsRemoveEach(RemoveFirst(remaining, placed[0]), pending - {placed[0].identifier}, placed[1..]);
    }
  }

  /**
   * One round's placements and warning count: the eligible resources, or the first
   * remaining resource alone with one warning when none is eligible.
   */
  function Placement(remaining: seq<Resource>, pending: set<string>): (seq<Resource>, nat)
    requires remaining != []
    reads remaining
  {
    var e := Eligible(remaining, pending);
    if e == [] then ([remaining[0]], 1) else (e, 0)
  }

  /** A round places something, and only resources that remain. */
  lemma PlacementFacts(remaining: seq<Resource>, pending: set<string>)
    requires remaining != []
    ensures Placement(remaining, pending).0 != []
    ensures multiset(Placement(remaining, pending).0) <= multiset(remaining)
  {
    EligibleWaitingSplit(remaining, pending);
    assert remaining[0] in multiset(remaining);
  }

  /** A round that completes leaves fewer resources, all of them from before. */
  lemma RoundShrinks(remaining: seq<Resource>, pending: set<string>, placed: seq<Resource>,
                     removal: Result<(seq<Resource>, set<string>), Error>)
    requires remaining != [] && placed == Placement(remaining, pending).0
    requires removal == RemovePlaced(remaining, pending, placed) && removal.Success?
    ensures 0 < |placed| && |removal.value.0| == |remaining| - |placed|
    ensures forall i :: 0 <= i < |removal.value.0| ==> removal.value.0[i] in remaining
  {
    PlacementFacts(remaining, pending);
    RemovePlacedIsRemoveEach(remaining, pending, placed);
    RemoveEachCount(remaining, placed);
    var rest := RemoveEach(remaining, placed);
    assert |multiset(rest)| == |multiset(remaining)| - |multiset(placed)|;
    SubMultisetElements(rest, remaining);
  }

  /**
   * The state of `get_deletion_order`'s loop between two rounds: the resources still
   * to place (`remaining`), the identifiers still pending (`remaining_ids`), the
   * order built so far and the warnings emitted so far.
   */
  datatype Peel = Peel(remaining: seq<Resource>, pending: set<string>, done: seq<Resource>, warnings: nat)

  /**
   * One round of the loop: this round's resources are appended to the order and
   * removed from the list, and their identifiers from the set; KeyError when an
   * identifier has already left the set.
   */
  function Advance(p: Peel): Result<Peel, Error>
    requires p.remaining != []
    reads p.remaining
  {
    var placement := Placement(p.remaining, p.pending);
    var removal := RemovePlaced(p.remaining, p.pending, placement.0);
    if removal.Failure? then Failure(removal.error)
    else Success(Peel(removal.value.0, removal.value.1, p.done + placement.0, p.warnings + placement.1))
  }

  /**
   * A completed round places something: the list and the set lose the same number
   * of entries, and what is left of the list was there before.
   */
  lemma AdvanceShrinks(p: Peel)
    requires p.remaining != [] && Advance(p).Success?
    ensures var n := Advance(p).value;
            |n.remaining| < |p.remaining| && |p.remaining| - |n.remaining| == |p.pending| - |n.pending|
    ensures var n := Advance(p).value; forall i :: 0 <= i < |n.remaining| ==> n.remaining[i] in p.remaining
  {
    var placed := Placement(p.remaining, p.pending).0;
    var removal := RemovePlaced(p.remaining, p.pending, placed);
    RoundShrinks(p.remaining, p.pending, placed, removal);
    RemovePlacedIsRemoveEach(p.remaining, p.pending, placed);
  }

  /** What the loop yields from state `p` on: the finished order, or the KeyError raised. */
  function Run(p: Peel): Result<Ordering, Error>
    reads p.remaining
    decreases |p.remaining|
  {
    if p.remaining == [] then Success(Ordering(p.done, p.warnings))
    else
      var next := Advance(p);
      if next.Failure? then Failure(next.error)
      else
        AdvanceShrinks(p);
        Run(next.value)
  }

  /** The states the loop passes through from `p` on, `p` first. */
  ghost function Trace(p: Peel): (t: seq<Peel>)
    reads p.remaining
    ensures t != [] && t[0] == p
    decreases |p.remaining|
  {
    if p.remaining == [] || Advance(p).Failure? then [p]
    else
      AdvanceShrinks(p);
      [p] + Trace(Advance(p).value)
  }

  /** A trace longer than one state starts with a round that completes. */
  lemma TraceOfRound(p: Peel)
    requires |Trace(p)| > 1
    ensures p.remaining != [] && Advance(p).Success? && |Advance(p).value.remaining| < |p.remaining|
    ensures Trace(p) == [p] + Trace(Advance(p).value)
  {
    if p.remaining != [] && Advance(p).Success? {
      AdvanceShrinks(p);
    }
  }

  /** Each state of the trace `t` from `p` that completes a round is followed by the state that round leads to. */
  lemma {:induction false} TraceStep(p: Peel, t: seq<Peel>, k: nat)
    requires t == Trace(p) && k < |t| && t[k].remaining != [] && Advance(t[k]).Success?
    ensures k + 1 < |t| && t[k + 1] == Advance(t[k]).value
    decreases |p.remaining|
  {
    if k > 0 {
      TraceOfRound(p);
      var n := Advance(p).value;
      TraceStep(n, t[1..], k - 1);
    }
  }

  /** Every state of the trace `t` from `p` leads to the same outcome. */
  lemma {:induction false} TraceRun(p: Peel, t: seq<Peel>, k: nat)
    requires t == Trace(p) && k < |t|
    ensures Run(t[k]) == Run(p)
    decreases |p.remaining|
  {
    if k > 0 {
      TraceOfRound(p);
      var n := Advance(p).value;
      TraceRun(n, t[1..], k - 1);
      RunStep(p);
    }
  }

  /**
   * One round of the loop, seen from the trace: a round that completes moves the
   * loop to the trace's next state, one that fails has reached the outcome.
   */
  lemma LoopRound(start: Peel, t: seq<Peel>, k: nat, remaining: seq<Resource>, pending: set<string>,
                  done: seq<Resource>, warnings: nat, placed: seq<Resource>, round: nat,
                  removal: Result<(seq<Resource>, set<string>), Error>)
    requires t == Trace(start) && k < |t| && t[k] == Peel(remaining, pending, done, warnings)
    requires remaining != [] && (placed, round) == Placement(remaining, pending)
    requires removal == RemovePlaced(remaining, pending, placed)
    ensures removal.Failure? ==> Run(start) == Failure(removal.error)
    ensures removal.Success? ==> k + 1 < |t| && |removal.value.0| < |remaining|
    ensures removal.Success? ==> t[k + 1] == Peel(removal.value.0, removal.value.1, done + placed, warnings + round)
  {
    var p := Peel(remaining, pending, done, warnings);
    TraceRun(start, t, k);
    if removal.Success? {
      AdvanceShrinks(p);
      TraceStep(start, t, k);
    }
  }

  /** A trace that reaches an empty list has reached the outcome. */
  lemma TraceFinishes(start: Peel, t: seq<Peel>, k: nat, done: seq<Resource>, pending: set<string>, warnings: nat)
    requires t == Trace(start) && k < |t| && t[k] == Peel([], pending, done, warnings)
    ensures Run(start) == Success(Ordering(done, warnings))
  {
    TraceRun(start, t, k);
  }

  /** The outcome of `get_deletion_order(selected)`. */
  function DeletionOrderWithIds(selected: seq<Resource>): Result<Ordering, Error>
    reads selected
  {
    Run(Peel(selected, Ids(selected), [], 0))
  }

  /**
   * `get_deletion_order`. Duplicate identifiers make the source raise KeyError at
   * `remaining_ids.remove`; here that is the `Failure` outcome.
   */
  method GetDeletionOrder(selectedResources: seq<Resource>) returns (r: Result<Ordering, Error>)
    ensures r == DeletionOrderWithIds(selectedResources)
    ensures r.Success? <==> UniqueIds(selectedResources)
    ensures r.Success? ==> r.value == DeletionOrder(selectedResources)
    ensures r.Failure? ==> r.error.KeyError?
  {
    r := PeelAll(selectedResources);
    DeletionOrderOutcome(selectedResources);
  }

  /** The `while remaining` loop of `get_deletion_order`. */
  method PeelAll(selectedResources: seq<Resource>) returns (r: Result<Ordering, Error>)
    ensures r == DeletionOrderWithIds(selectedResources)
  {
    var deletionOrder: seq<Resource> := [];
    var warnings: nat := 0;
    var remaining := selectedResources;
    var remainingIds := Ids(remaining);

    ghost var start := Peel(remaining, remainingIds, deletionOrder, warnings);
    ghost var states := Trace(start);
    ghost var k: nat := 0;
    while remaining != []
      invariant states == Trace(start)
      invariant k < |states| && states[k] == Peel(remaining, remainingIds, deletionOrder, warnings)
      decreases |remaining|
    {
      var canDelete, round, removal := PeelRound(remaining, remainingIds);
      LoopRound(start, states, k, remaining, remainingIds, deletionOrder, warnings, canDelete, round, removal);
      if removal.Failure? {
        return Failure(removal.error);
      }
      deletionOrder := deletionOrder + canDelete;
      warnings := warnings + round;
      remaining, remainingIds := removal.value.0, removal.value.1;
      k := k + 1;
    }
    r := Success(Ordering(deletionOrder, warnings));
    TraceFinishes(start, states, k, deletionOrder, remainingIds, warnings);
  }

  /** One pass of the loop body: the scan, the forced choice on a cycle, and the removals. */
  method PeelRound(remaining: seq<Resource>, remainingIds: set<string>)
    returns (canDelete: seq<Resource>, round: nat, removal: Result<(seq<Resource>, set<string>), Error>)
    requires remaining != []
    ensures (canDelete, round) == Placement(remaining, remainingIds)
    ensures removal == RemovePlaced(remaining, remainingIds, canDelete)
  {
    canDelete := CollectEligible(remaining, remainingIds);
    round := 0;
    if canDelete == [] {
      // circular dependency or unresolved: the first remaining resource goes, with a warning
      canDelete := [remaining[0]];
      round := 1;
    }
    removal := RemoveRound(remaining, remainingIds, canDelete);
  }

  /** One round's scan: `can_delete`, the resources with no dependent among `remaining_ids`. */
  method CollectEligible(remaining: seq<Resource>, remainingIds: set<string>) returns (canDelete: seq<Resource>)
    ensures canDelete == Eligible(remaining, remainingIds)
  {
    canDelete := [];
    for i := 0 to |remaining|
      invariant canDelete == Eligible(remaining[..i], remainingIds)
    {
      var resource := remaining[i];
      var hasDependentsInRemaining := Blocked(resource, remainingIds);
      EligibleStep(remaining, i, remainingIds);
      if !hasDependentsInRemaining {
        canDelete := canDelete + [resource];
      }
    }
    assert remaining[..|remaining|] == remaining;
  }

  /**
   * One round's removals: each placed resource leaves the list and its identifier
   * leaves the set; an identifier already gone raises KeyError.
   */
  method RemoveRound(remaining: seq<Resource>, remainingIds: set<string>, placed: seq<Resource>)
    returns (r: Result<(seq<Resource>, set<string>), Error>)
    ensures r == RemovePlaced(remaining, remainingIds, placed)
  {
    var rest, restIds := remaining, remainingIds;
    for k := 0 to |placed|
      invariant RemovePlaced(remaining, remainingIds, placed) == RemovePlaced(rest, restIds, placed[k..])
    {
      var resource := placed[k];
      assert placed[k..][0] == resource && placed[k..][1..] == placed[k + 1..];
      rest := RemoveFirst(rest, resource);
      if resource.identifier !in restIds {
        return Failure(KeyError(resource.identifier));
      }
      restIds := restIds - {resource.identifier};
    }
    assert placed[|placed|..] == [];
    r := Success((rest, restIds));
  }

  // ---------------------------------------------------------------- properties of the order

  /** An empty selection yields an empty order, without warnings. */
  lemma EmptySelection()
    ensures DeletionOrderWithIds([]) == Success(Ordering([], 0))
    ensures DeletionOrder([]) == Ordering([], 0)
  {
  }

  /**
   * A round in which every remaining resource is blocked (a cycle) places the first
   * remaining resource, alone, ahead of everything else, and counts one warning.
   */
  lemma ForcedRound(s: seq<Resource>)
    requires s != [] && forall x :: x in s ==> Blocked(x, Ids(s))
    ensures Placement(s, Ids(s)) == ([s[0]], 1)
    ensures DeletionOrder(s).order[0] == s[0]
    ensures DeletionOrder(s).warnings == DeletionOrder(s[1..]).warnings + 1
  {
    AllBlocked(s, Ids(s));
  }

  /** When every resource is blocked, none is eligible. */
  lemma {:induction false} AllBlocked(remaining: seq<Resource>, pending: set<string>)
    requires forall x :: x in remaining ==> Blocked(x, pending)
    ensures Eligible(remaining, pending) == []
  {
    if remaining != [] {
      assert remaining[0] in remaining;
      AllBlocked(remaining[1..], pending);
    }
  }

  /** Every selected resource appears in the order exactly as often as in the selection. */
  lemma DeletionOrderIsPermutation(s: seq<Resource>)
    ensures multiset(DeletionOrder(s).order) == multiset(s)
  {
    OrderIsPermutation(s, DeletionOrder(s));
  }

  /** The induction behind it, on the ordering `o` of `s`. */
  lemma {:induction false} OrderIsPermutation(s: seq<Resource>, o: Ordering)
    requires o == DeletionOrder(s)
    ensures multiset(o.order) == multiset(s)
    decreases |s|
  {
    if s != [] {
      var e := Eligible(s, Ids(s));
      if e != [] {
        var w := Waiting(s, Ids(s));
        EligibleWaitingSplit(s, Ids(s));
        WaitingShrinks(s, Ids(s));
        OrderIsPermutation(w, DeletionOrder(w));
        assert o.order == e + DeletionOrder(w).order;
        assert multiset(o.order) == multiset(e) + multiset(DeletionOrder(w).order);
      } else {
        OrderIsPermutation(s[1..], DeletionOrder(s[1..]));
        assert o.order == [s[0]] + DeletionOrder(s[1..]).order;
        assert multiset(o.order) == multiset([s[0]]) + multiset(DeletionOrder(s[1..]).order);
        assert s == [s[0]] + s[1..];
      }
    }
  }

  /** Every resource of `o` comes after each of its dependents that `o` holds. */
  ghost predicate DependentsBefore(o: seq<Resource>)
    reads o
  {
    forall p, q :: 0 <= p < |o| && 0 <= q < |o| && o[q].identifier in o[p].dependents ==> q < p
  }

  /**
   * A round of unblocked resources followed by an order that keeps dependents first
   * keeps dependents first, when every identifier involved is pending.
   */
  lemma RoundThenRest(e: seq<Resource>, rest: seq<Resource>, pending: set<string>)
    requires forall k :: 0 <= k < |e| ==> !Blocked(e[k], pending)
    requires forall k :: 0 <= k < |e + rest| ==> (e + rest)[k].identifier in pending
    requires DependentsBefore(rest)
    ensures DependentsBefore(e + rest)
  {
    var o := e + rest;
    forall p, q | 0 <= p < |o| && 0 <= q < |o| && o[q].identifier in o[p].dependents
      ensures q < p
    {
      assert Blocked(o[p], pending);
      if q >= |e| {
        assert o[q] == rest[q - |e|] && o[p] == rest[p - |e|];
      }
    }
  }

  /**
   * Without a forced round, every resource comes after all of its dependents that
   * are in the selection.
   */
  lemma {:induction false} DependentsComeFirst(s: seq<Resource>)
    ensures DeletionOrder(s).warnings == 0 ==> DependentsBefore(DeletionOrder(s).order)
    decreases |s|
  {
    var e := Eligible(s, Ids(s));
    if s != [] && e != [] && DeletionOrder(s).warnings == 0 {
      var w := Waiting(s, Ids(s));
      WaitingShrinks(s, Ids(s));
      DependentsComeFirst(w);
      var o := DeletionOrder(s).order;
      assert o == e + DeletionOrder(w).order;
      EligibleMembers(s, Ids(s));
      forall k | 0 <= k < |e| ensures !Blocked(e[k], Ids(s)) {
        assert e[k] in e;
      }
      DeletionOrderIsPermutation(s);
      forall k | 0 <= k < |o| ensures o[k].identifier in Ids(s) {
        assert o[k] in multiset(o);
        assert o[k] in s;
      }
      RoundThenRest(e, DeletionOrder(w).order, Ids(s));
    }
  }

  /**
   * A ranking in which every selected dependent sits above the resource it depends on
   * exists exactly when the dependents form no cycle inside the selection.
   */
  ghost predicate RankedBy(s: seq<Resource>, rank: string -> nat)
    reads s
  {
    forall r, d :: r in s && d in r.dependents && d in Ids(s) ==> rank(d) > rank(r.identifier)
  }

  lemma {:induction false} HighestRanked(s: seq<Resource>, rank: string -> nat) returns (m: Resource)
    requires s != []
    ensures m in s && forall r :: r in s ==> rank(r.identifier) <= rank(m.identifier)
  {
    if |s| == 1 {
      m := s[0];
    } else {
      var m' := HighestRanked(s[1..], rank);
      m := if rank(s[0].identifier) >= rank(m'.identifier) then s[0] else m';
      assert s == [s[0]] + s[1..];
    }
  }

  /** Without a cycle among the selected dependents, no round is ever forced. */
  lemma {:induction false} AcyclicNeedsNoWarning(s: seq<Resource>, rank: string -> nat)
    requires RankedBy(s, rank)
    ensures DeletionOrder(s).warnings == 0
    decreases |s|
  {
    if s != [] {
      var m := HighestRanked(s, rank);
      assert !Blocked(m, Ids(s));
      EligibleMembers(s, Ids(s));
      var w := Waiting(s, Ids(s));
      WaitingShrinks(s, Ids(s));
      WaitingMembers(s, Ids(s));
      assert RankedBy(w, rank);
      AcyclicNeedsNoWarning(w, rank);
    }
  }

  /** Dependents outside the selection never hold anything back: one round places all. */
  lemma OutsideDependentsNeverBlock(s: seq<Resource>)
    requires forall r, d :: r in s && d in r.dependents ==> d !in Ids(s)
    ensures DeletionOrder(s) == Ordering(s, 0)
  {
    if s != [] {
      NothingBlocked(s, Ids(s));
      assert s + [] == s;
    }
  }

  // ---------------------------------------------------------------- the two formulations agree

  lemma {:induction false} RemoveEligibleLeavesWaiting(remaining: seq<Resource>, pending: set<string>)
    ensures RemoveEach(remaining, Eligible(remaining, pending)) == Waiting(remaining, pending)
  {
    if remaining != [] {
      var a := remaining[0];
      var t := remaining[1..];
      assert remaining == [a] + t;
      var et := Eligible(t, pending);
      RemoveEligibleLeavesWaiting(t, pending);
      if Blocked(a, pending) {
        assert Eligible(remaining, pending) == et;
        assert Waiting(remaining, pending) == [a] + Waiting(t, pending);
        EligibleMembers(t, pending);
        RemoveEachSkipsHead(a, t, et);
      } else {
        assert Eligible(remaining, pending) == [a] + et;
        assert Waiting(remaining, pending) == Waiting(t, pending);
        assert RemoveFirst(remaining, a) == t;
        assert ([a] + et)[0] == a && ([a] + et)[1..] == et;
        assert RemoveEach(remaining, [a] + et) == RemoveEach(t, et);
      }
    }
  }

  lemma {:induction false} RemoveEachSkipsHead(a: Resource, t: seq<Resource>, xs: seq<Resource>)
    requires a !in xs
    ensures RemoveEach([a] + t, xs) == [a] + RemoveEach(t, xs)
    decreases |xs|
  {
    if xs != [] {
      assert ([a] + t)[0] == a && ([a] + t)[1..] == t;
      assert RemoveFirst([a] + t, xs[0]) == [a] + RemoveFirst(t, xs[0]);
      RemoveEachSkipsHead(a, RemoveFirst(t, xs[0]), xs[1..]);
    }
  }

  lemma UniqueIdsOfSubMultiset(s: seq<Resource>, t: seq<Resource>)
    requires UniqueIds(s) && multiset(t) <= multiset(s)
    ensures UniqueIds(t)
  {
    forall i, j | 0 <= i < j < |t| ensures t[i].identifier != t[j].identifier {
      assert t[i] in multiset(t) && t[j] in multiset(t);
      OnceInUnique(s, t[i]);
      RepeatedPositionCount(t, i, j);
      SameIdentifierSameObjectIfEqual(s, t[i], t[j]);
    }
  }

  lemma RepeatedPositionCount(t: seq<Resource>, i: nat, j: nat)
    requires i < j < |t|
    ensures t[i] == t[j] ==> multiset(t)[t[i]] >= 2
  {
    assert t == t[..i] + [t[i]] + t[i + 1..j] + [t[j]] + t[j + 1..];
  }

  lemma {:induction false} OnceInUnique(s: seq<Resource>, x: Resource)
    requires UniqueIds(s)
    ensures multiset(s)[x] <= 1
  {
    if s != [] {
      var t := s[1..];
      assert s == [s[0]] + t;
      assert UniqueIds(t) by {
        forall i, j | 0 <= i < j < |t| ensures t[i].identifier != t[j].identifier {
          assert t[i] == s[i + 1] && t[j] == s[j + 1];
        }
      }
      OnceInUnique(t, x);
      if s[0] == x {
        forall j | 0 <= j < |t| ensures t[j] != x {
          assert t[j] == s[j + 1];
        }
        assert multiset(t)[x] == 0;
      }
    }
  }

  lemma UniqueIdsOfTail(s: seq<Resource>)
    requires s != [] && UniqueIds(s)
    ensures UniqueIds(s[1..])
    ensures forall y :: y in s[1..] ==> y.identifier != s[0].identifier
  {
    forall i, j | 0 <= i < j < |s| - 1 ensures s[1..][i].identifier != s[1..][j].identifier {
      assert s[1..][i] == s[i + 1] && s[1..][j] == s[j + 1];
    }
    forall y | y in s[1..] ensures y.identifier != s[0].identifier {
      var j :| 0 <= j < |s[1..]| && s[1..][j] == y;
      assert s[j + 1] == y;
    }
  }

  /** With distinct identifiers, `remaining.remove(x)` keeps exactly the resources other than `x`. */
  lemma {:induction false} RemoveFirstMembers(s: seq<Resource>, x: Resource)
    requires UniqueIds(s) && x in s
    ensures forall y :: y in RemoveFirst(s, x) ==> y in s && y != x
    ensures forall y :: y in s && y != x ==> y in RemoveFirst(s, x)
    ensures UniqueIds(RemoveFirst(s, x))
  {
    UniqueIdsOfTail(s);
    if s[0] != x {
      RemoveFirstMembers(s[1..], x);
      var t := RemoveFirst(s[1..], x);
      assert RemoveFirst(s, x) == [s[0]] + t;
      forall y | y in t ensures y.identifier != s[0].identifier {
        assert y in s[1..];
      }
      forall i, j | 0 <= i < j < |[s[0]] + t| ensures ([s[0]] + t)[i].identifier != ([s[0]] + t)[j].identifier {
        if i > 0 {
          assert ([s[0]] + t)[i] == t[i - 1] && ([s[0]] + t)[j] == t[j - 1];
        } else {
          assert ([s[0]] + t)[j] in t;
        }
      }
      assert s == [s[0]] + s[1..];
    }
  }

  /** With distinct identifiers, removing one resource removes exactly its identifier. */
  lemma RemoveOneUnique(remaining: seq<Resource>, x: Resource)
    requires UniqueIds(remaining) && x in remaining
    ensures var rest := RemoveFirst(remaining, x);
            x.identifier in Ids(remaining) && Ids(rest) == Ids(remaining) - {x.identifier}
            && UniqueIds(rest) && multiset(rest) == multiset(remaining) - multiset{x}
  {
    var rest := RemoveFirst(remaining, x);
    RemoveFirstCount(remaining, x);
    RemoveFirstMembers(remaining, x);
    forall id | id in Ids(rest) ensures id != x.identifier {
      var y :| y in rest && y.identifier == id;
      SameIdentifierSameObjectIfEqual(remaining, y, x);
    }
  }

  /** With distinct identifiers, removing the placed resources keeps `remaining_ids` equal to the remaining identifiers. */
  lemma {:induction false} RemovePlacedUnique(remaining: seq<Resource>, placed: seq<Resource>)
    requires UniqueIds(remaining) && multiset(placed) <= multiset(remaining)
    ensures RemovePlaced(remaining, Ids(remaining), placed)
            == Success((RemoveEach(remaining, placed), Ids(RemoveEach(remaining, placed))))
    decreases |placed|
  {
    if placed != [] {
      var x := placed[0];
      assert placed == [x] + placed[1..];
      assert x in multiset(placed);
      var rest := RemoveFirst(remaining, x);
      RemoveOneUnique(remaining, x);
      assert multiset(placed[1..]) <= multiset(rest);
      RemovePlacedUnique(rest, placed[1..]);
    }
  }

  /**
   * With distinct identifiers, one round of the loop on a list whose identifier set
   * is exact places what the list-based formulation places in its first round, and
   * leaves a list whose identifier set is again exact.
   */
  lemma UniqueRound(s: seq<Resource>, done: seq<Resource>, warnings: nat,
                    placed: seq<Resource>, round: nat, rest: seq<Resource>)
    requires s != [] && UniqueIds(s)
    requires placed == Placement(s, Ids(s)).0 && round == Placement(s, Ids(s)).1
    requires rest == RemoveEach(s, placed)
    ensures Advance(Peel(s, Ids(s), done, warnings)) == Success(Peel(rest, Ids(rest), done + placed, warnings + round))
  {
    var p := Peel(s, Ids(s), done, warnings);
    PlacementFacts(s, Ids(s));
    RemovePlacedUnique(s, placed);
    var removal := RemovePlaced(s, Ids(s), placed);
    assert removal == Success((rest, Ids(rest)));
    assert Placement(p.remaining, p.pending) == (placed, round);
  }

  /** The list-based formulation's first round removes exactly what it places. */
  lemma ListRound(s: seq<Resource>, placed: seq<Resource>, round: nat, rest: seq<Resource>)
    requires s != []
    requires placed == Placement(s, Ids(s)).0 && round == Placement(s, Ids(s)).1
    requires rest == RemoveEach(s, placed)
    ensures DeletionOrder(s) == Ordering(placed + DeletionOrder(rest).order, DeletionOrder(rest).warnings + round)
  {
    if Eligible(s, Ids(s)) == [] {
      assert RemoveEach(s, [s[0]]) == s[1..];
    } else {
      RemoveEligibleLeavesWaiting(s, Ids(s));
    }
  }

  /** What one round leaves has distinct identifiers again, and is shorter. */
  lemma UniqueRest(s: seq<Resource>, placed: seq<Resource>, rest: seq<Resource>)
    requires s != [] && UniqueIds(s)
    requires placed == Placement(s, Ids(s)).0 && rest == RemoveEach(s, placed)
    ensures UniqueIds(rest) && |rest| < |s|
  {
    PlacementFacts(s, Ids(s));
    RemoveEachCount(s, placed);
    assert |multiset(rest)| == |multiset(s)| - |multiset(placed)|;
    UniqueIdsOfSubMultiset(s, rest);
  }

  /** A round that completes hands the rest of the run to the state it leads to. */
  lemma RunStep(p: Peel)
    requires p.remaining != [] && Advance(p).Success?
    ensures Run(p) == Run(Advance(p).value)
  {
  }

  /** An empty selection: both formulations add nothing. */
  lemma NothingLeftToPlace(done: seq<Resource>, warnings: nat)
    ensures Run(Peel([], Ids([]), done, warnings))
            == Success(Ordering(done + DeletionOrder([]).order, warnings + DeletionOrder([]).warnings))
  {
    assert done + [] == done;
  }

  /** A completed round hands the rest of the run to the state it leads to. */
  lemma RunAfterRound(p: Peel, q: Peel)
    requires p.remaining != [] && Advance(p) == Success(q)
    ensures Run(p) == Run(q)
  {
    RunStep(p);
  }

  /** One round of both formulations on a list with distinct identifiers, with what it leaves. */
  lemma NextRound(s: seq<Resource>, done: seq<Resource>, warnings: nat)
    returns (placed: seq<Resource>, round: nat, rest: seq<Resource>)
    requires s != [] && UniqueIds(s)
    ensures UniqueIds(rest) && |rest| < |s|
    ensures Run(Peel(s, Ids(s), done, warnings)) == Run(Peel(rest, Ids(rest), done + placed, warnings + round))
    ensures DeletionOrder(s) == Ordering(placed + DeletionOrder(rest).order, DeletionOrder(rest).warnings + round)
  {
    placed, round := Placement(s, Ids(s)).0, Placement(s, Ids(s)).1;
    rest := RemoveEach(s, placed);
    UniqueRest(s, placed, rest);
    UniqueRound(s, done, warnings, placed, round, rest);
    RunAfterRound(Peel(s, Ids(s), done, warnings), Peel(rest, Ids(rest), done + placed, warnings + round));
    ListRound(s, placed, round, rest);
  }

  /**
   * With distinct identifiers, the set-based loop of discovery.py places exactly
   * what the list-based formulation places, round for round, with the same warnings:
   * `run` is the loop's outcome from `s` and `list` the list-based ordering of `s`.
   */
  lemma {:induction false} SetAndListLoopsAgree(s: seq<Resource>, done: seq<Resource>, warnings: nat,
                                                run: Result<Ordering, Error>, list: Ordering)
    requires UniqueIds(s)
    requires run == Run(Peel(s, Ids(s), done, warnings)) && list == DeletionOrder(s)
    ensures run == Success(Ordering(done + list.order, warnings + list.warnings))
    decreases |s|, 1
  {
    if s == [] {
      NothingLeftToPlace(done, warnings);
    } else {
      SetAndListRoundsAgree(s, done, warnings, run, list);
    }
  }

  /** The agreement on a non-empty list: one round, then the rest by induction. */
  lemma {:induction false} SetAndListRoundsAgree(s: seq<Resource>, done: seq<Resource>, warnings: nat,
                                                 run: Result<Ordering, Error>, list: Ordering)
    requires s != [] && UniqueIds(s)
    requires run == Run(Peel(s, Ids(s), done, warnings)) && list == DeletionOrder(s)
    ensures run == Success(Ordering(done + list.order, warnings + list.warnings))
    decreases |s|, 0
  {
    var placed, round, rest := NextRound(s, done, warnings);
    var later := DeletionOrder(rest);
    SetAndListLoopsAgree(rest, done + placed, warnings + round, run, later);
    ConcatAssociative(done, placed, later.order);
  }

  /** A run that succeeds never runs out of identifiers: it needs one per remaining resource. */
  lemma {:induction false} SuccessNeedsEnoughIds(p: Peel)
    requires Run(p).Success?
    ensures |p.remaining| <= |p.pending|
    decreases |p.remaining|
  {
    if p.remaining != [] {
      AdvanceShrinks(p);
      SuccessNeedsEnoughIds(Advance(p).value);
    }
  }

  lemma {:induction false} DuplicatesShrinkIds(s: seq<Resource>)
    ensures |Ids(s)| <= |s|
    ensures !UniqueIds(s) ==> |Ids(s)| < |s|
  {
    if s != [] {
      var front := s[..|s| - 1];
      var x := s[|s| - 1];
      assert s == front + [x];
      assert Ids(s) == Ids(front) + {x.identifier};
      DuplicatesShrinkIds(front);
      if !UniqueIds(s) && UniqueIds(front) {
        var i, j :| 0 <= i < j < |s| && s[i].identifier == s[j].identifier;
        assert j == |s| - 1;
        assert s[i] in front;
        assert Ids(s) == Ids(front);
      }
    }
  }

  /**
   * What `get_deletion_order` yields: the list-based ordering when the identifiers
   * are distinct, and KeyError when they are not.
   */
  lemma DeletionOrderOutcome(s: seq<Resource>)
    ensures DeletionOrderWithIds(s).Success? <==> UniqueIds(s)
    ensures DeletionOrderWithIds(s).Success? ==> DeletionOrderWithIds(s).value == DeletionOrder(s)
    ensures DeletionOrderWithIds(s).Failure? ==> DeletionOrderWithIds(s).error.KeyError?
  {
    var p := Peel(s, Ids(s), [], 0);
    if Run(p).Success? {
      SuccessNeedsEnoughIds(p);
      DuplicatesShrinkIds(s);
    }
    if UniqueIds(s) {
      SetAndListLoopsAgree(s, [], 0, Run(p), DeletionOrder(s));
      assert [] + DeletionOrder(s).order == DeletionOrder(s).order;
    }
    FailuresAreKeyErrors(p);
  }

  lemma {:induction false} FailuresAreKeyErrors(p: Peel)
    ensures Run(p).Failure? ==> Run(p).error.KeyError?
    decreases |p.remaining|
  {
    if p.remaining != [] {
      var placed := Placement(p.remaining, p.pending).0;
      RemovePlacedFailsWithKeyError(p.remaining, p.pending, placed);
      if Advance(p).Success? {
        AdvanceShrinks(p);
        FailuresAreKeyErrors(Advance(p).value);
      }
    }
  }

  lemma {:induction false} RemovePlacedFailsWithKeyError(remaining: seq<Resource>, pending: set<string>, placed: seq<Resource>)
    ensures RemovePlaced(remaining, pending, placed).Failure? ==> RemovePlaced(remaining, pending, placed).error.KeyError?
    decreases |placed|
  {
    if placed != [] && placed[0].identifier in pending {
      RemovePlacedFailsWithKeyError(RemoveFirst(remaining, placed[0]), pending - {placed[0].identifier}, placed[1..]);
    }
  }
}
