/** The jurisdiction tree: a map of jurisdictions with parent ids, its worklist traversal and location counts. */
module JurisdictionTrees {
  import opened Encoding
  import opened JurisdictionPaths

  datatype Jurisdiction = Jurisdiction(id: string, parentId: Option<string>, votingLocations: seq<string>)

  type Table = map<string, Jurisdiction>

  // ---------------------------------------------------------------- ancestry

  ghost predicate ChildOf(m: Table, x: string, p: string) { x in m && m[x].parentId == Some(p) }

  ghost function Children(m: Table, p: string): set<string> { set x | x in m && ChildOf(m, x, p) }

  /** The `n`-th ancestor, 0 being the jurisdiction itself. */
  function Ancestor(m: Table, x: string, n: nat): Option<string>
    decreases n
  {
    if n == 0 then Some(x)
    else if x in m && m[x].parentId.Some? then Ancestor(m, m[x].parentId.value, n - 1)
    else None
  }

  ghost predicate IsDescendant(m: Table, x: string, p: string) {
    x in m && exists n :: n >= 1 && Ancestor(m, x, n) == Some(p)
  }

  ghost function Descendants(m: Table, p: string): set<string> { set x | x in m && IsDescendant(m, x, p) }

  /** A jurisdiction with its descendants. */
  ghost function Subtree(m: Table, p: string): set<string> {
    Own(m, p) + Descendants(m, p)
  }

  /** The jurisdiction itself, if it is there. */
  ghost function Own(m: Table, p: string): set<string> { if p in m then {p} else {} }

  /** Every key is the id of its entry, which is all that adding guarantees. */
  ghost predicate Keyed(m: Table) { forall x | x in m :: m[x].id == x }

  /** Every parent is present, and ranks fall towards the roots. */
  ghost predicate Ranked(m: Table, rank: map<string, nat>) {
    && Keyed(m) && m.Keys == rank.Keys
    && (forall x | x in m && m[x].parentId.Some? :: m[x].parentId.value in m && rank[m[x].parentId.value] < rank[x])
  }

  /** What adding jurisdictions parents-first gives. */
  ghost predicate Grounded(m: Table) { exists rank :: Ranked(m, rank) }

  /** Adding a new jurisdiction whose parent is absent from it or already present keeps the tree grounded. */
  lemma {:induction false} AddKeepsGrounded(m: Table, j: Jurisdiction)
    requires Grounded(m) && j.id !in m && (j.parentId.Some? ==> j.parentId.value in m)
    ensures Grounded(m[j.id := j])
  {
    var rank :| Ranked(m, rank);
    var r := if j.parentId.Some? then rank[j.parentId.value] + 1 else 0;
    assert Ranked(m[j.id := j], rank[j.id := r]);
  }

  /** Adds in order; a repeated id is refused and changes nothing. */
  function Build(js: seq<Jurisdiction>): Table {
    if js == [] then map[]
    else
      var m, j := Build(js[..|js| - 1]), js[|js| - 1];
      if j.id in m then m else m[j.id := j]
  }

  ghost predicate ParentsFirst(js: seq<Jurisdiction>) {
    forall i | 0 <= i < |js| :: js[i].parentId.Some? ==> exists k :: 0 <= k < i && js[k].id == js[i].parentId.value
  }

  lemma {:induction false} BuildHas(js: seq<Jurisdiction>, k: nat)
    requires k < |js|
    ensures js[k].id in Build(js)
  {
    if k < |js| - 1 {
      assert js[..|js| - 1][k] == js[k];
      BuildHas(js[..|js| - 1], k);
    }
  }

  /** Every sequence of adds that names no parent or an earlier one builds a grounded tree. */
  lemma {:induction false} BuildGrounded(js: seq<Jurisdiction>)
    requires ParentsFirst(js)
    ensures Grounded(Build(js))
  {
    if js == [] {
      assert Ranked(map[], map[]);
    } else {
      var prefix, j := js[..|js| - 1], js[|js| - 1];
      assert forall i | 0 <= i < |prefix| :: prefix[i] == js[i];
      BuildGrounded(prefix);
      if j.id !in Build(prefix) {
        if j.parentId.Some? {
          var k :| 0 <= k < |js| - 1 && js[k].id == j.parentId.value;
          BuildHas(prefix, k);
        }
        AddKeepsGrounded(Build(prefix), j);
      }
    }
  }

  // ---------------------------------------------------------------- facts about ancestors

  lemma {:induction false} AncestorOfAncestor(m: Table, x: string, n: nat, k: nat)
    requires Ancestor(m, x, n).Some?
    ensures Ancestor(m, x, n + k) == Ancestor(m, Ancestor(m, x, n).value, k)
    decreases n
  {
    if n > 0 {
      AncestorOfAncestor(m, m[x].parentId.value, n - 1, k);
    }
  }

  lemma {:induction false} AncestorRank(m: Table, rank: map<string, nat>, x: string, n: nat)
    requires Ranked(m, rank) && x in m && n >= 1 && Ancestor(m, x, n).Some?
    ensures Ancestor(m, x, n).value in m && rank[Ancestor(m, x, n).value] < rank[x]
    decreases n
  {
    if n > 1 {
      AncestorRank(m, rank, m[x].parentId.value, n - 1);
    }
  }

  /** No jurisdiction descends from itself. */
  lemma {:induction false} NotOwnDescendant(m: Table, x: string)
    requires Grounded(m)
    ensures !IsDescendant(m, x, x)
  {
    if IsDescendant(m, x, x) {
      var rank :| Ranked(m, rank);
      var n :| n >= 1 && Ancestor(m, x, n) == Some(x);
      AncestorRank(m, rank, x, n);
    }
  }

  /** Children of a jurisdiction or of its descendants are its descendants. */
  lemma {:induction false} ChildDescends(m: Table, x: string, q: string, p: string)
    requires ChildOf(m, x, q) && (q == p || IsDescendant(m, q, p))
    ensures IsDescendant(m, x, p)
  {
    if q == p {
      assert Ancestor(m, p, 0) == Some(p);
      assert Ancestor(m, x, 1) == Some(p);
    } else {
      var n :| n >= 1 && Ancestor(m, q, n) == Some(p);
      assert Ancestor(m, x, n + 1) == Some(p);
    }
  }

  /** A set that holds the children of `p` and of its own members holds every descendant of `p`. */
  lemma {:induction false} ClosedHoldsDescendants(m: Table, p: string, closed: set<string>, x: string, n: nat)
    requires forall y, q | ChildOf(m, y, q) && (q == p || q in closed) :: y in closed
    requires x in m && n >= 1 && Ancestor(m, x, n) == Some(p)
    ensures x in closed
    decreases n
  {
    var q := m[x].parentId.value;
    assert ChildOf(m, x, q);
    if n > 1 {
      ClosedHoldsDescendants(m, p, closed, q, n - 1);
    }
  }

  lemma {:induction false} ClosedIsDescendants(m: Table, p: string, closed: set<string>)
    requires forall y, q | ChildOf(m, y, q) && (q == p || q in closed) :: y in closed
    requires forall y | y in closed :: y in m && IsDescendant(m, y, p)
    ensures closed == Descendants(m, p)
  {
    forall x | x in Descendants(m, p)
      ensures x in closed
    {
      var n :| n >= 1 && Ancestor(m, x, n) == Some(p);
      ClosedHoldsDescendants(m, p, closed, x, n);
    }
  }

  // ---------------------------------------------------------------- locations

  /** The locations of the jurisdictions in `s`, each as often as they list it. */
  ghost function Locations(m: Table, s: set<string>): multiset<string>
    requires s <= m.Keys
  {
    if s == {} then multiset{}
    else
      var x :| x in s;
      multiset(m[x].votingLocations) + Locations(m, s - {x})
  }

  lemma {:induction false} LocationsRemove(m: Table, s: set<string>, y: string)
    requires s <= m.Keys && y in s
    ensures Locations(m, s) == multiset(m[y].votingLocations) + Locations(m, s - {y})
    decreases s
  {
    var x :| x in s && Locations(m, s) == multiset(m[x].votingLocations) + Locations(m, s - {x});
    if x != y {
      LocationsRemove(m, s - {x}, y);
      LocationsRemove(m, s - {y}, x);
      assert s - {x} - {y} == s - {y} - {x};
    }
  }

  lemma {:induction false} LocationsUnion(m: Table, a: set<string>, b: set<string>)
    requires a <= m.Keys && b <= m.Keys && a !! b
    ensures Locations(m, a + b) == Locations(m, a) + Locations(m, b)
    decreases a
  {
    if a == {} {
      assert a + b == b;
    } else {
      var x :| x in a;
      LocationsUnion(m, a - {x}, b);
      LocationsRemove(m, a, x);
      LocationsRemove(m, a + b, x);
      assert (a + b) - {x} == (a - {x}) + b;
    }
  }

  ghost function Roots(m: Table): set<string> { set x | x in m && m[x].parentId.None? }

  /** The subtrees of a set of roots together. */
  ghost function Forest(m: Table, roots: set<string>): set<string> {
    set x | x in m && exists r :: r in roots && x in Subtree(m, r)
  }

  /** The location counts of the subtrees of a set of roots, added up. */
  ghost function SumOverRoots(m: Table, roots: set<string>): nat
    requires roots <= m.Keys
  {
    if roots == {} then 0
    else
      var r :| r in roots;
      |Locations(m, Subtree(m, r))| + SumOverRoots(m, roots - {r})
  }

  lemma {:induction false} InSubtree(m: Table, x: string, r: string) returns (n: nat)
    requires r in m && x in Subtree(m, r)
    ensures Ancestor(m, x, n) == Some(r)
  {
    if x == r {
      n := 0;
    } else {
      n :| n >= 1 && Ancestor(m, x, n) == Some(r);
    }
  }

  /** Above a root there is nothing. */
  lemma {:induction false} RootIsTop(m: Table, r: string)
    requires r in Roots(m)
    ensures forall k | k > 0 :: Ancestor(m, r, k) == None
  {
  }

  /** A jurisdiction belongs to the subtree of one root only. */
  lemma {:induction false} OneRoot(m: Table, x: string, r: string, s: string)
    requires r in Roots(m) && s in Roots(m) && x in Subtree(m, r) && x in Subtree(m, s)
    ensures r == s
  {
    var n := InSubtree(m, x, r);
    var k := InSubtree(m, x, s);
    RootIsTop(m, r);
    RootIsTop(m, s);
    if n <= k {
      AncestorOfAncestor(m, x, n, k - n);
    } else {
      AncestorOfAncestor(m, x, k, n - k);
    }
  }

  lemma {:induction false} HasRoot(m: Table, rank: map<string, nat>, x: string) returns (r: string)
    requires Ranked(m, rank) && x in m
    ensures r in Roots(m) && x in Subtree(m, r)
    decreases rank[x]
  {
    if m[x].parentId.None? {
      r := x;
    } else {
      var q := m[x].parentId.value;
      r := HasRoot(m, rank, q);
      assert ChildOf(m, x, q);
      ChildDescends(m, x, q, r);
    }
  }

  lemma {:induction false} ForestSum(m: Table, roots: set<string>)
    requires roots <= Roots(m)
    ensures SumOverRoots(m, roots) == |Locations(m, Forest(m, roots))|
    decreases roots
  {
    if roots == {} {
      assert Forest(m, roots) == {};
    } else {
      var r :| r in roots && SumOverRoots(m, roots) == |Locations(m, Subtree(m, r))| + SumOverRoots(m, roots - {r});
      ForestSum(m, roots - {r});
      ForestSplits(m, roots, r);
      LocationsUnion(m, Subtree(m, r), Forest(m, roots - {r}));
    }
  }

  lemma {:induction false} ForestSplits(m: Table, roots: set<string>, r: string)
    requires roots <= Roots(m) && r in roots
    ensures Forest(m, roots) == Subtree(m, r) + Forest(m, roots - {r})
    ensures Subtree(m, r) !! Forest(m, roots - {r})
  {
    forall x | x in Subtree(m, r) && x in Forest(m, roots - {r})
      ensures false
    {
      var s :| s in roots - {r} && x in Subtree(m, s);
      OneRoot(m, x, r, s);
    }
    forall x | x in Forest(m, roots)
      ensures x in Subtree(m, r) || x in Forest(m, roots - {r})
    {
      var s :| s in roots && x in Subtree(m, s);
      assert s == r || s in roots - {r};
    }
  }

  /** A set of jurisdictions has no locations exactly if none of them lists one. */
  lemma {:induction false} NoLocations(m: Table, s: set<string>)
    requires s <= m.Keys
    ensures |Locations(m, s)| == 0 <==> forall x | x in s :: m[x].votingLocations == []
    decreases s
  {
    if s != {} {
      var y :| y in s;
      LocationsRemove(m, s, y);
      NoLocations(m, s - {y});
      assert forall x | x in s :: x == y || x in s - {y};
    }
  }

  /** Location counts summed over the parentless jurisdictions equal the count over all jurisdictions if and only if
      no jurisdiction with locations is cut off from them, by an unknown parent or by a cycle. */
  lemma {:induction false} RootsCountExact(m: Table)
    ensures SumOverRoots(m, Roots(m)) == |Locations(m, m.Keys)|
       <==> forall x | x in m && x !in Forest(m, Roots(m)) :: m[x].votingLocations == []
  {
    var forest := Forest(m, Roots(m));
    ForestSum(m, Roots(m));
    LocationsUnion(m, forest, m.Keys - forest);
    assert forest + (m.Keys - forest) == m.Keys;
    NoLocations(m, m.Keys - forest);
  }

  /** In a grounded tree nothing is cut off, so they are equal. */
  lemma {:induction false} RootsCountEverything(m: Table)
    requires Grounded(m)
    ensures SumOverRoots(m, Roots(m)) == |Locations(m, m.Keys)|
  {
    ForestIsAll(m);
    RootsCountExact(m);
  }

  /** A jurisdiction with locations whose parent is unknown is accepted and drops out of the sum. */
  lemma {:induction false} UnknownParentDropsOut(x: string, p: string, locations: seq<string>)
    requires x != p && locations != []
    ensures var m := Build([Jurisdiction(x, Some(p), locations)]);
            SumOverRoots(m, Roots(m)) == 0 && |Locations(m, m.Keys)| == |locations|
  {
    var j := Jurisdiction(x, Some(p), locations);
    BuildAppend([], j);
    assert [] + [j] == [j];
    var m := Build([j]);
    assert Roots(m) == {} && m.Keys == {x};
    LocationsRemove(m, {x}, x);
    assert {x} - {x} == {};
  }

  lemma {:induction false} ForestIsAll(m: Table)
    requires Grounded(m)
    ensures Forest(m, Roots(m)) == m.Keys
  {
    var rank :| Ranked(m, rank);
    forall x | x in m.Keys
      ensures x in Forest(m, Roots(m))
    {
      var r := HasRoot(m, rank, x);
    }
  }

  // ---------------------------------------------------------------- the tree object

  ghost function Ids(js: seq<Jurisdiction>): set<string> { set j | j in js :: j.id }

  /** A list of entries of the table, each at most once. */
  ghost predicate Lists(m: Table, js: seq<Jurisdiction>, s: set<string>) {
    && Ids(js) == s && |js| == |s|
    && (forall j | j in js :: j.id in m && m[j.id] == j)
    && (forall a, b | 0 <= a < b < |js| :: js[a].id != js[b].id)
  }

  lemma {:induction false} ListsConcat(m: Table, a: seq<Jurisdiction>, s: set<string>, b: seq<Jurisdiction>,
                                       t: set<string>)
    requires Lists(m, a, s) && Lists(m, b, t) && s !! t
    ensures Lists(m, a + b, s + t)
  {
    forall i, k | 0 <= i < k < |a + b|
      ensures (a + b)[i].id != (a + b)[k].id
    {
      if k < |a| {
        assert a[i].id != a[k].id;
      } else if i < |a| {
        assert a[i].id in Ids(a) && b[k - |a|].id in Ids(b);
      } else {
        assert b[i - |a|].id != b[k - |a|].id;
      }
    }
    assert Ids(a + b) == s + t;
    assert |s + t| == |s| + |t|;
  }

  ghost function ChildrenAmong(m: Table, s: set<string>, p: string): set<string> {
    set x | x in s && ChildOf(m, x, p)
  }

  lemma {:induction false} ChildrenStep(m: Table, seen: set<string>, x: string, p: string,
                                        children: seq<Jurisdiction>)
    requires x in m && x !in seen && m[x].id == x && Lists(m, children, ChildrenAmong(m, seen, p))
    ensures Lists(m, if m[x].parentId == Some(p) then children + [m[x]] else children, ChildrenAmong(m, seen + {x}, p))
  {
    if m[x].parentId == Some(p) {
      assert ChildrenAmong(m, seen + {x}, p) == ChildrenAmong(m, seen, p) + {x};
      assert Ids([m[x]]) == {x};
      ListsConcat(m, children, ChildrenAmong(m, seen, p), [m[x]], {x});
    } else {
      assert ChildrenAmong(m, seen + {x}, p) == ChildrenAmong(m, seen, p);
    }
  }

  ghost function Elements(s: seq<string>): set<string> { set l | l in s }

  /** `locations` gathers the locations of the jurisdictions in `s`, with multiplicity. */
  ghost predicate Covers(m: Table, locations: seq<string>, s: set<string>) {
    s <= m.Keys && multiset(locations) == Locations(m, s)
  }

  lemma {:induction false} CoversMore(m: Table, locations: seq<string>, s: set<string>, x: string)
    requires Covers(m, locations, s) && x in m && x !in s
    ensures Covers(m, locations + m[x].votingLocations, s + {x})
  {
    LocationsRemove(m, s + {x}, x);
    assert s + {x} - {x} == s;
  }

  lemma {:induction false} OwnCovered(m: Table, id: string, own: seq<string>)
    requires !IsDescendant(m, id, id) && own == if id in m then m[id].votingLocations else []
    ensures Covers(m, own, Own(m, id)) && Own(m, id) !! Descendants(m, id)
  {
    assert Covers(m, [], {});
    if id in m {
      CoversMore(m, [], {}, id);
      assert [] + own == own && {} + {id} == {id};
    }
  }

  lemma {:induction false} NextUncovered(m: Table, js: seq<Jurisdiction>, i: nat, ids: set<string>,
                                         start: set<string>)
    requires i < |js| && Lists(m, js, ids) && start !! ids
    ensures js[i].id in m && m[js[i].id] == js[i] && js[i].id !in start + Ids(js[..i])
    ensures Ids(js[..i + 1]) == Ids(js[..i]) + {js[i].id}
  {
    assert js[..i + 1] == js[..i] + [js[i]];
    assert js[i] in js && js[i].id in Ids(js);
    assert forall k | 0 <= k < i :: js[..i][k] == js[k];
  }

  lemma {:induction false} GatherStep(m: Table, js: seq<Jurisdiction>, i: nat, ids: set<string>, start: set<string>,
                                      locations: seq<string>)
    requires i < |js| && Lists(m, js, ids) && start !! ids && Covers(m, locations, start + Ids(js[..i]))
    ensures Covers(m, locations + js[i].votingLocations, start + Ids(js[..i + 1]))
  {
    NextUncovered(m, js, i, ids, start);
    CoversMore(m, locations, start + Ids(js[..i]), js[i].id);
    assert start + Ids(js[..i]) + {js[i].id} == start + Ids(js[..i + 1]);
  }

  function ParentOf(m: Table, id: string): Option<string> { if id in m then m[id].parentId else None }

  /** The index holds each jurisdiction under the path of its id alone. */
  ghost predicate OwnPaths(index: map<Path, string>, m: Table) {
    && (forall p | p in index :: p == Path([index[p]]) && index[p] in m)
    && (forall x | x in m :: Path([x]) in index)
  }

  class JurisdictionTree {
    var jurisdictions: Table
    var pathIndex: map<Path, string>

    /** Entries stand under their ids, and the path index holds what adding puts there. */
    ghost predicate Valid()
      reads this
    {
      Keyed(jurisdictions) && OwnPaths(pathIndex, jurisdictions)
    }

    constructor ()
      ensures Valid() && jurisdictions == map[]
    {
      jurisdictions := map[];
      pathIndex := map[];
    }

    /** The walk from a new jurisdiction towards the root; its own entry is not there yet, so it stops at once. */
    method BuildPath(j: Jurisdiction) returns (path: Path)
      requires j.id !in jurisdictions
      ensures path == Path([j.id])
    {
      var components := [];
      var current := Some(j.id);
      while current.Some?
        invariant if current.Some? then current.value == j.id && components == [] else components == [j.id]
        decreases current.Some?
      {
        components := [current.value] + components;
        current := ParentOf(jurisdictions, current.value);
      }
      path := Path(components);
    }

    method AddJurisdiction(j: Jurisdiction) returns (r: Result<()>)
      requires Valid()
      modifies this
      ensures Valid()
      ensures r.Ok? <==> j.id !in old(jurisdictions)
      ensures r.Err? ==> r.error == InvalidInput("Jurisdiction already exists")
      ensures jurisdictions == if r.Ok? then old(jurisdictions)[j.id := j] else old(jurisdictions)
      ensures old(Grounded(jurisdictions)) && (j.parentId.Some? ==> j.parentId.value in old(jurisdictions))
          ==> Grounded(jurisdictions)
    {
      if j.id in jurisdictions {
        return Err(InvalidInput("Jurisdiction already exists"));
      }
      ghost var before := jurisdictions;
      var path := BuildPath(j);
      pathIndex := pathIndex[path := j.id];
      jurisdictions := jurisdictions[j.id := j];
      if Grounded(before) && (j.parentId.Some? ==> j.parentId.value in before) {
        AddKeepsGrounded(before, j);
      }
      r := Ok(());
    }

    /** Only one-component paths are ever found: a jurisdiction under its own id, whatever its ancestors. */
    method GetByPath(path: Path) returns (r: Option<Jurisdiction>)
      requires Valid()
      ensures r.Some? <==> |path.components| == 1 && path.components[0] in jurisdictions
      ensures r.Some? ==> r.value == jurisdictions[path.components[0]]
    {
      if path in pathIndex && pathIndex[path] in jurisdictions {
        r := Some(jurisdictions[pathIndex[path]]);
      } else {
        r := None;
      }
      assert |path.components| == 1 ==> path == Path([path.components[0]]);
    }

    /** The children in the map's own order, whatever that is. */
    method GetChildren(parentId: string) returns (children: seq<Jurisdiction>)
      requires Keyed(jurisdictions)
      ensures Lists(jurisdictions, children, Children(jurisdictions, parentId))
    {
      children := [];
      var pending := jurisdictions.Keys;
      ghost var m, seen: set<string> := jurisdictions, {};
      while pending != {}
        invariant jurisdictions == m && seen !! pending && seen + pending == m.Keys
        invariant Lists(m, children, ChildrenAmong(m, seen, parentId))
        decreases |pending|
      {
        var x :| x in pending;
        pending := pending - {x};
        ChildrenStep(m, seen, x, parentId, children);
        if jurisdictions[x].parentId == Some(parentId) {
          children := children + [jurisdictions[x]];
        }
        seen := seen + {x};
      }
      assert ChildrenAmong(m, seen, parentId) == Children(m, parentId);
    }

    /** Each proper descendant exactly once, unless the start lies on a parent cycle; then the source's loop
        does not end (`CycleNeverEnds`). */
    method GetAllDescendants(parentId: string) returns (descendants: seq<Jurisdiction>)
      requires Keyed(jurisdictions) && !IsDescendant(jurisdictions, parentId, parentId)
      ensures Lists(jurisdictions, descendants, Descendants(jurisdictions, parentId))
    {
      ghost var m := jurisdictions;
      ghost var done: set<string> := {};
      descendants := [];
      var queue := [parentId];
      TraversalStarts(m, parentId);
      while queue != []
        invariant Traversal(m, parentId, queue, descendants, done)
        decreases Left(m, parentId, done)
      {
        var id := queue[|queue| - 1];
        var children := GetChildren(id);
        TraversalStep(m, parentId, queue, descendants, done, children);
        queue := queue[..|queue| - 1] + IdList(children);
        descendants := descendants + children;
        done := done + {id};
      }
      TraversalEnds(m, parentId, descendants, done);
    }

    /** Own locations first, then those of every descendant. */
    method GetAllLocations(id: string) returns (locations: seq<string>)
      requires Keyed(jurisdictions) && !IsDescendant(jurisdictions, id, id)
      ensures multiset(locations) == Locations(jurisdictions, Subtree(jurisdictions, id))
      ensures id in jurisdictions ==> jurisdictions[id].votingLocations <= locations
    {
      ghost var m := jurisdictions;
      var own := if id in jurisdictions then jurisdictions[id].votingLocations else [];
      var descendants := GetAllDescendants(id);
      OwnCovered(m, id, own);
      locations := GatherLocations(m, descendants, Descendants(m, id), own, Own(m, id));
    }

    /** The loop of `get_all_locations` over the descendants. */
    static method GatherLocations(ghost m: Table, js: seq<Jurisdiction>, ghost ids: set<string>,
                                  first: seq<string>, ghost start: set<string>)
      returns (locations: seq<string>)
      requires Lists(m, js, ids) && Covers(m, first, start) && start !! ids
      ensures Covers(m, locations, start + ids) && first <= locations
    {
      locations := first;
      assert start + Ids(js[..0]) == start;
      for i := 0 to |js|
        invariant Covers(m, locations, start + Ids(js[..i])) && first <= locations
      {
        GatherStep(m, js, i, ids, start, locations);
        locations := locations + js[i].votingLocations;
      }
      assert js[..|js|] == js;
    }

    method TotalLocations() returns (total: nat)
      ensures total == |Locations(jurisdictions, jurisdictions.Keys)|
    {
      total := 0;
      var pending := jurisdictions.Keys;
      while pending != {}
        invariant pending <= jurisdictions.Keys
        invariant total + |Locations(jurisdictions, pending)| == |Locations(jurisdictions, jurisdictions.Keys)|
        decreases |pending|
      {
        var x :| x in pending;
        LocationsRemove(jurisdictions, pending, x);
        total := total + |jurisdictions[x].votingLocations|;
        pending := pending - {x};
      }
    }
  }

  // ---------------------------------------------------------------- the worklist

  function IdList(js: seq<Jurisdiction>): seq<string> {
    seq<string>(|js|, i requires 0 <= i < |js| => js[i].id)
  }

  ghost function ChildrenOfAll(m: Table, s: set<string>): set<string> {
    set x | x in m && m[x].parentId.Some? && m[x].parentId.value in s
  }

  /** Found are exactly the children of what was taken off the queue; queued and done are the start and the
      found ones, none of them twice. */
  ghost predicate Worklist(m: Table, start: string, queue: seq<string>, done: set<string>, found: set<string>) {
    && !IsDescendant(m, start, start) && Distinct(queue)
    && done !! Elements(queue) && done + Elements(queue) == {start} + found
    && found == ChildrenOfAll(m, done)
    && found <= Descendants(m, start)
  }

  lemma {:induction false} IdListMembers(m: Table, js: seq<Jurisdiction>, s: set<string>)
    requires Lists(m, js, s)
    ensures Distinct(IdList(js)) && forall x :: x in IdList(js) <==> x in s
  {
    forall x | x in s
      ensures x in IdList(js)
    {
      var j :| j in js && j.id == x;
      var i :| 0 <= i < |js| && js[i] == j;
      assert IdList(js)[i] == x;
    }
    forall x | x in IdList(js)
      ensures x in s
    {
      var i :| 0 <= i < |js| && IdList(js)[i] == x;
      assert js[i] in js;
    }
  }

  lemma {:induction false} DistinctConcat(a: seq<string>, b: seq<string>)
    requires Distinct(a) && Distinct(b) && forall x | x in a :: x !in b
    ensures Distinct(a + b)
  {
    forall i, j | 0 <= i < j < |a + b|
      ensures (a + b)[i] != (a + b)[j]
    {
      if i < |a| <= j {
        assert a[i] in a && b[j - |a|] in b;
      }
    }
  }

  lemma {:induction false} QueueEnd(queue: seq<string>, id: string)
    requires Distinct(queue + [id])
    ensures Distinct(queue) && id !in queue && Elements(queue + [id]) == Elements(queue) + {id}
  {
    var all := queue + [id];
    assert all[|queue|] == id;
    assert forall i | 0 <= i < |queue| :: all[i] == queue[i];
  }

  /** The children of a queued id are new: below the start, but neither the start nor found yet. */
  lemma {:induction false} NewChildren(m: Table, start: string, queue: seq<string>, id: string, done: set<string>,
                                       found: set<string>)
    requires Worklist(m, start, queue + [id], done, found)
    ensures id !in done && id !in queue
    ensures Children(m, id) !! {start} + found && Children(m, id) <= Descendants(m, start)
  {
    QueueEnd(queue, id);
    assert id in {start} + found && id !in done;
    forall x | x in Children(m, id)
      ensures x in Descendants(m, start) && x !in found && x != start
    {
      ChildDescends(m, x, id, start);
    }
  }

  /** Moving `id` from the queue to done and its children into the queue, as plain sets. */
  lemma {:induction false} MoveOne(done: set<string>, queued: set<string>, id: string, start: string,
                                   found: set<string>, kids: set<string>)
    requires done !! queued + {id} && done + (queued + {id}) == {start} + found
    requires id !in queued && kids !! {start} + found
    ensures (done + {id}) !! queued + kids && (done + {id}) + (queued + kids) == {start} + (found + kids)
    ensures queued !! kids && found !! kids
  {
  }

  /** Taking `id` off the queue and queueing its children keeps the picture; `queue` is what remains. */
  lemma {:induction false} WorklistStep(m: Table, start: string, queue: seq<string>, id: string, done: set<string>,
                                        found: set<string>, children: seq<Jurisdiction>)
    requires Worklist(m, start, queue + [id], done, found) && Lists(m, children, Children(m, id))
    ensures Worklist(m, start, queue + IdList(children), done + {id}, found + Children(m, id))
    ensures id !in done && found !! Children(m, id)
  {
    var kids := Children(m, id);
    QueueEnd(queue, id);
    NewChildren(m, start, queue, id, done, found);
    MoveOne(done, Elements(queue), id, start, found, kids);
    QueueGrows(m, queue, children, kids);
    ChildrenOfOneMore(m, done, id);
  }

  lemma {:induction false} ChildrenOfOneMore(m: Table, s: set<string>, id: string)
    ensures ChildrenOfAll(m, s + {id}) == ChildrenOfAll(m, s) + Children(m, id)
  {
    assert forall x | x in Children(m, id) :: ChildOf(m, x, id);
    assert forall x | x in m && m[x].parentId == Some(id) :: ChildOf(m, x, id);
  }

  lemma {:induction false} QueueGrows(m: Table, queue: seq<string>, children: seq<Jurisdiction>, kids: set<string>)
    requires Distinct(queue) && Lists(m, children, kids) && Elements(queue) !! kids
    ensures Distinct(queue + IdList(children)) && Elements(queue + IdList(children)) == Elements(queue) + kids
  {
    IdListMembers(m, children, kids);
    forall x | x in queue
      ensures x !in IdList(children)
    {
      assert x in Elements(queue);
    }
    DistinctConcat(queue, IdList(children));
  }

  /** With an empty queue the found ones are all descendants. */
  lemma {:induction false} WorklistDone(m: Table, start: string, done: set<string>, found: set<string>)
    requires Worklist(m, start, [], done, found)
    ensures found == Descendants(m, start)
  {
    forall y, q | ChildOf(m, y, q) && (q == start || q in found)
      ensures y in found
    {
      assert q in done;
    }
    ClosedIsDescendants(m, start, found);
  }

  /** The loop's whole picture: the worklist, and the list of what was found. */
  ghost predicate Traversal(m: Table, start: string, queue: seq<string>, listed: seq<Jurisdiction>, done: set<string>) {
    Worklist(m, start, queue, done, ChildrenOfAll(m, done)) && Lists(m, listed, ChildrenOfAll(m, done))
  }

  /** How many ids can still be taken off the queue. */
  ghost function Left(m: Table, start: string, done: set<string>): nat { |(m.Keys + {start}) - done| }

  lemma {:induction false} TraversalStarts(m: Table, start: string)
    requires !IsDescendant(m, start, start)
    ensures Traversal(m, start, [start], [], {})
  {
    assert ChildrenOfAll(m, {}) == {} && Elements([start]) == {start} && Ids([]) == {};
  }

  /** One turn keeps the picture and leaves fewer ids. */
  lemma {:induction false} TraversalStep(m: Table, start: string, queue: seq<string>, listed: seq<Jurisdiction>,
                                         done: set<string>, children: seq<Jurisdiction>)
    requires queue != [] && Traversal(m, start, queue, listed, done)
    requires Lists(m, children, Children(m, queue[|queue| - 1]))
    ensures var rest, id := queue[..|queue| - 1], queue[|queue| - 1];
            && Traversal(m, start, rest + IdList(children), listed + children, done + {id})
            && Left(m, start, done + {id}) < Left(m, start, done)
  {
    var rest, id, found := queue[..|queue| - 1], queue[|queue| - 1], ChildrenOfAll(m, done);
    assert queue == rest + [id];
    WorklistStep(m, start, rest, id, done, found, children);
    ListsConcat(m, listed, found, children, Children(m, id));
    ChildrenOfOneMore(m, done, id);
    LeftFalls(m, start, rest, id, done);
  }

  lemma {:induction false} LeftFalls(m: Table, start: string, rest: seq<string>, id: string, done: set<string>)
    requires Worklist(m, start, rest + [id], done, ChildrenOfAll(m, done))
    ensures Left(m, start, done + {id}) < Left(m, start, done)
  {
    QueueEnd(rest, id);
    assert id in {start} + ChildrenOfAll(m, done) && id !in done;
    assert (m.Keys + {start}) - done == ((m.Keys + {start}) - (done + {id})) + {id};
  }

  lemma {:induction false} TraversalEnds(m: Table, start: string, listed: seq<Jurisdiction>, done: set<string>)
    requires Traversal(m, start, [], listed, done)
    ensures Lists(m, listed, Descendants(m, start))
  {
    WorklistDone(m, start, done, ChildrenOfAll(m, done));
  }

  // ---------------------------------------------------------------- cycles

  /** One turn of the source's loop: the last queued id is replaced by its children, in some order. */
  ghost predicate Turn(m: Table, before: seq<string>, after: seq<string>) {
    && before != []
    && exists children :: Lists(m, children, Children(m, before[|before| - 1]))
                       && after == before[..|before| - 1] + IdList(children)
  }

  /** Adding builds such tables: a jurisdiction that names itself as parent is accepted. */
  lemma {:induction false} OwnParentAccepted(x: string, locations: seq<string>)
    ensures var m := Build([Jurisdiction(x, Some(x), locations)]); x in m && IsDescendant(m, x, x)
  {
    var j := Jurisdiction(x, Some(x), locations);
    BuildAppend([], j);
    assert [] + [j] == [j];
    var m := Build([j]);
    assert ChildOf(m, x, x);
    ChildDescends(m, x, x, x);
  }

  /** So are two that name each other, the first of them before its parent exists. */
  lemma {:induction false} MutualParentsAccepted(x: string, y: string, atX: seq<string>, atY: seq<string>)
    requires x != y
    ensures var m := Build([Jurisdiction(x, Some(y), atX), Jurisdiction(y, Some(x), atY)]);
            IsDescendant(m, x, x) && IsDescendant(m, y, y)
  {
    var a, b := Jurisdiction(x, Some(y), atX), Jurisdiction(y, Some(x), atY);
    BuildAppend([], a);
    BuildAppend([a], b);
    assert [] + [a] == [a] && [a] + [b] == [a, b];
    var m := Build([a, b]);
    assert ChildOf(m, x, y) && ChildOf(m, y, x);
    ChildDescends(m, x, y, y);
    ChildDescends(m, y, x, x);
    ChildDescends(m, x, y, x);
    ChildDescends(m, y, x, y);
  }

  lemma {:induction false} BuildAppend(js: seq<Jurisdiction>, j: Jurisdiction)
    ensures Build(js + [j]) == if j.id in Build(js) then Build(js) else Build(js)[j.id := j]
  {
    assert (js + [j])[..|js + [j]| - 1] == js;
  }

  /** A jurisdiction on a parent cycle has a child on it. */
  lemma {:induction false} CycleChild(m: Table, x: string) returns (y: string)
    requires IsDescendant(m, x, x)
    ensures y in Children(m, x) && IsDescendant(m, y, y)
  {
    var n :| n >= 1 && Ancestor(m, x, n) == Some(x);
    var k;
    y, k := CyclePredecessor(m, x, n, x);
    AncestorOfAncestor(m, y, 1, k);
    assert Ancestor(m, Ancestor(m, y, 1).value, k) == Some(y);
    assert Ancestor(m, y, 1 + k) == Some(y);
  }

  /** The step before the `n`-th ancestor. */
  lemma {:induction false} CyclePredecessor(m: Table, x: string, n: nat, top: string) returns (y: string, k: nat)
    requires x in m && n >= 1 && Ancestor(m, x, n) == Some(top)
    ensures ChildOf(m, y, top) && Ancestor(m, y, 1) == Some(top) && Ancestor(m, x, k) == Some(y)
    decreases n
  {
    if n == 1 {
      y, k := x, 0;
      assert Ancestor(m, m[x].parentId.value, 0) == Some(top);
    } else {
      var q := m[x].parentId.value;
      assert Ancestor(m, q, n - 1) == Some(top);
      y, k := CyclePredecessor(m, q, n - 1, top);
      k := k + 1;
    }
  }

  /** From a start on a parent cycle the queue never empties, whatever order children come in; together with
      `GetAllDescendants` this makes "not its own descendant" the exact condition for the traversal to end. */
  lemma {:induction false} CycleNeverEnds(m: Table, start: string, trace: seq<seq<string>>)
    requires IsDescendant(m, start, start)
    requires trace != [] && trace[0] == [start] && forall i | 0 <= i < |trace| - 1 :: Turn(m, trace[i], trace[i + 1])
    ensures exists q :: q in trace[|trace| - 1] && IsDescendant(m, q, q)
  {
    var n := |trace| - 1;
    if n == 0 {
      assert start in trace[0];
    } else {
      assert trace[..n][n - 1] == trace[n - 1];
      assert forall i | 0 <= i < n :: trace[..n][i] == trace[i];
      CycleNeverEnds(m, start, trace[..n]);
      assert Turn(m, trace[n - 1], trace[n - 1 + 1]);
      CycleTurn(m, trace[n - 1], trace[n]);
    }
  }

  lemma {:induction false} CycleTurn(m: Table, before: seq<string>, after: seq<string>)
    requires Turn(m, before, after) && exists q :: q in before && IsDescendant(m, q, q)
    ensures exists q :: q in after && IsDescendant(m, q, q)
  {
    var n := |before| - 1;
    var children :| Lists(m, children, Children(m, before[n])) && after == before[..n] + IdList(children);
    var q :| q in before && IsDescendant(m, q, q);
    if q == before[n] {
      var y := CycleChild(m, q);
      IdListMembers(m, children, Children(m, q));
      assert y in after;
    } else {
      assert q in before[..n];
      assert q in after;
    }
  }
}
