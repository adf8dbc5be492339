/** The bookkeeping of one client session: the set of dirty components and the refresh
    loop that builds them, reconciliation of a rebuilt component with its predecessor,
    font registration, saving user settings and closing the session. Components are named
    by their identities; what a build produces, which components are alive and what the
    event handlers do are given as functions. */
module Sessions {
  import opened Wrappers
  import opened SessionValues
  import SessionMatcher
  import SessionSettings

  /* ---------------------------------------------------------------------------------
     Dirty components
     --------------------------------------------------------------------------------- */

  /** The components `_register_dirty_component` marks when told to include children: the
      component itself and, only when it is fundamental, the same for each of its direct
      children. */
  ghost function DirtyClosure(c: SessionMatcher.Node): set<Id>
    decreases c, 2
  {
    {c.id} + (if c.fundamental then ClosureAttrs(c, |c.attrs|) else {})
  }

  /** The closures of the children held by the first `i` attributes of `c`. */
  ghost function ClosureAttrs(c: SessionMatcher.Node, i: nat): set<Id>
    requires i <= |c.attrs|
    decreases c, 1, i
  {
    if i == 0 then {} else ClosureAttrs(c, i - 1) + ClosureList(c, i - 1, |c.attrs[i - 1].children|)
  }

  /** The closures of the first `j` children held by attribute `i` of `c`. */
  ghost function ClosureList(c: SessionMatcher.Node, i: nat, j: nat): set<Id>
    requires i < |c.attrs| && j <= |c.attrs[i].children|
    decreases c, 0, j
  {
    if j == 0 then {} else ClosureList(c, i, j - 1) + DirtyClosure(c.attrs[i].children[j - 1])
  }

  ghost function IdsOf(s: set<SessionMatcher.Node>): set<Id> {
    set x | x in s :: x.id
  }

  /** Only components of the subtree are ever marked. */
  lemma DirtyClosureInSubtree(c: SessionMatcher.Node)
    ensures DirtyClosure(c) <= IdsOf(SessionMatcher.Nodes(c))
  {
    forall x | x in DirtyClosure(c)
      ensures x in IdsOf(SessionMatcher.Nodes(c))
    {
      DirtyClosureMember(c, x);
    }
  }

  lemma {:induction false} DirtyClosureMember(c: SessionMatcher.Node, x: Id)
    requires x in DirtyClosure(c)
    ensures exists n :: n in SessionMatcher.Nodes(c) && n.id == x
    decreases c, 2
  {
    if x == c.id {
      SessionMatcher.SelfInNodes(c);
    } else {
      ClosureAttrsMember(c, |c.attrs|, x);
    }
  }

  lemma {:induction false} ClosureAttrsMember(c: SessionMatcher.Node, i: nat, x: Id)
    requires i <= |c.attrs| && x in ClosureAttrs(c, i)
    ensures exists n :: n in SessionMatcher.Nodes(c) && n.id == x
    decreases c, 1, i
  {
    if x in ClosureAttrs(c, i - 1) {
      ClosureAttrsMember(c, i - 1, x);
    } else {
      ClosureListMember(c, i - 1, |c.attrs[i - 1].children|, x);
    }
  }

  lemma {:induction false} ClosureListMember(c: SessionMatcher.Node, i: nat, j: nat, x: Id)
    requires i < |c.attrs| && j <= |c.attrs[i].children| && x in ClosureList(c, i, j)
    ensures exists n :: n in SessionMatcher.Nodes(c) && n.id == x
    decreases c, 0, j
  {
    if x in ClosureList(c, i, j - 1) {
      ClosureListMember(c, i, j - 1, x);
    } else {
      var child := c.attrs[i].children[j - 1];
      DirtyClosureMember(child, x);
      var n :| n in SessionMatcher.Nodes(child) && n.id == x;
      SessionMatcher.ChildNodes(c, i, j - 1);
      assert n in SessionMatcher.Nodes(c);
    }
  }

  lemma {:induction false} ClosureListHasChild(c: SessionMatcher.Node, i: nat, j: nat, k: nat)
    requires i < |c.attrs| && k < j <= |c.attrs[i].children|
    ensures c.attrs[i].children[k].id in ClosureList(c, i, j)
    decreases j
  {
    if k < j - 1 {
      ClosureListHasChild(c, i, j - 1, k);
    }
  }

  lemma {:induction false} ClosureAttrsHasChild(c: SessionMatcher.Node, n: nat, i: nat, k: nat)
    requires i < n <= |c.attrs| && k < |c.attrs[i].children|
    ensures c.attrs[i].children[k].id in ClosureAttrs(c, n)
    decreases n
  {
    if i < n - 1 {
      ClosureAttrsHasChild(c, n - 1, i, k);
    } else {
      ClosureListHasChild(c, i, |c.attrs[i].children|, k);
    }
  }

  /** Every direct child of a fundamental component is marked along with it. */
  lemma FundamentalChildrenMarked(c: SessionMatcher.Node, i: nat, k: nat)
    requires c.fundamental && i < |c.attrs| && k < |c.attrs[i].children|
    ensures c.attrs[i].children[k].id in DirtyClosure(c)
  {
    ClosureAttrsHasChild(c, |c.attrs|, i, k);
  }

  /* ---------------------------------------------------------------------------------
     Refresh
     --------------------------------------------------------------------------------- */

  /** The number of builds of one component a refresh allows before it gives up. */
  const MaxBuilds := 5

  /** What building a component does: the components it marks dirty while building
      (components it creates and that reconciliation does not merge into old ones, and
      itself if it assigns to its own state), the components
      reconciliation then marks dirty, the old components reconciliation merges a new one
      into (which re-arms their `on_populate` event), and the components of its build
      boundary. */
  datatype BuildStep = BuildStep(buildDirtied: set<Id>, reconcileDirtied: set<Id>, reconciled: set<Id>, children: set<Id>)

  datatype RefreshError =
    | RebuiltTooOften(component: Id, count: nat)
    | BuildChangedState(component: Id)

  datatype Refreshed = Refreshed(visitedLive: set<Id>, mounted: set<Id>, unmounted: set<Id>)

  /** The components whose `on_populate` event the builds counted in `visited` re-armed:
      every old component their reconciliation merged a new component into. */
  ghost function Rearmed(visited: multiset<Id>, fundamental: set<Id>, build: (Id, nat) -> BuildStep): set<Id> {
    set c, k: nat, d | c in visited && c !in fundamental && 1 <= k <= visited[c] && d in build(c, k).reconciled :: d
  }

  /** Counting one more visit of `c` adds the components its build re-arms, if it is built. */
  lemma RearmedStep(visited: multiset<Id>, fundamental: set<Id>, build: (Id, nat) -> BuildStep, c: Id)
    ensures var visited' := visited[c := visited[c] + 1];
            Rearmed(visited', fundamental, build) ==
            Rearmed(visited, fundamental, build) + (if c in fundamental then {} else build(c, visited[c] + 1).reconciled)
  {
    var visited' := visited[c := visited[c] + 1];
    var extra := if c in fundamental then {} else build(c, visited[c] + 1).reconciled;
    forall d | d in Rearmed(visited', fundamental, build)
      ensures d in Rearmed(visited, fundamental, build) + extra
    {
      var c', k: nat :| c' in visited' && c' !in fundamental && 1 <= k <= visited'[c'] && d in build(c', k).reconciled;
      if c' != c || k <= visited[c] {
        assert c' in visited;
      }
    }
    forall d | d in Rearmed(visited, fundamental, build) + extra
      ensures d in Rearmed(visited', fundamental, build)
    {
      if d in extra {
        assert c in visited' && c !in fundamental && 1 <= visited[c] + 1 <= visited'[c] && d in build(c, visited[c] + 1).reconciled;
      } else {
        var c', k: nat :| c' in visited && c' !in fundamental && 1 <= k <= visited[c'] && d in build(c', k).reconciled;
        assert c' in visited' && 1 <= k <= visited'[c'];
      }
    }
  }

  /** Every build a refresh may perform: a component and the number of the build. */
  ghost function Slots(universe: set<Id>): set<(Id, nat)> {
    set c, k | c in universe && 1 <= k <= MaxBuilds :: (c, k)
  }

  /** The children recorded for a component, none when it was never built. */
  function ChildrenOf(boundaries: map<Id, set<Id>>, c: Id): set<Id> {
    if c in boundaries then boundaries[c] else {}
  }

  /** All children in the build boundaries of the given non-fundamental components. */
  function Children(components: set<Id>, fundamental: set<Id>, boundaries: map<Id, set<Id>>): set<Id> {
    set c, x | c in components && c !in fundamental && x in ChildrenOf(boundaries, c) :: x
  }

  lemma ChildrenStep(done: set<Id>, c: Id, fundamental: set<Id>, boundaries: map<Id, set<Id>>)
    ensures Children(done + {c}, fundamental, boundaries) ==
            Children(done, fundamental, boundaries) + (if c in fundamental then {} else ChildrenOf(boundaries, c))
  {
    var l := Children(done + {c}, fundamental, boundaries);
    var r := Children(done, fundamental, boundaries) + (if c in fundamental then {} else ChildrenOf(boundaries, c));
    assert forall x :: x in r ==> x in l;
  }

  lemma ChildrenAgree(components: set<Id>, fundamental: set<Id>, a: map<Id, set<Id>>, b: map<Id, set<Id>>)
    requires forall c :: c in components && c !in fundamental ==> ChildrenOf(a, c) == ChildrenOf(b, c)
    ensures Children(components, fundamental, a) == Children(components, fundamental, b)
  {
  }

  /** One step of the loop collecting children: a fundamental component adds none. */
  method AddChildren(acc: set<Id>, c: Id, fundamental: set<Id>, boundaries: map<Id, set<Id>>, ghost done: set<Id>)
    returns (acc': set<Id>)
    requires acc == Children(done, fundamental, boundaries)
    ensures acc' == Children(done + {c}, fundamental, boundaries)
  {
    ChildrenStep(done, c, fundamental, boundaries);
    acc' := acc;
    if c !in fundamental {
      acc' := acc + ChildrenOf(boundaries, c);
    }
  }

  /** The mount diff at the end of `_refresh_sync`: components now in some visited build
      boundary that were in none before are mounted, and the reverse are unmounted. */
  method MountDiff(visitedLive: set<Id>, fundamental: set<Id>, before: map<Id, set<Id>>, after: map<Id, set<Id>>)
    returns (mounted: set<Id>, unmounted: set<Id>)
    requires forall c :: c in visitedLive && c !in fundamental ==> c in before && c in after
    ensures mounted == Children(visitedLive, fundamental, after) - Children(visitedLive, fundamental, before)
    ensures unmounted == Children(visitedLive, fundamental, before) - Children(visitedLive, fundamental, after)
    ensures mounted !! unmounted
  {
    var allOld: set<Id> := {};
    var allNew: set<Id> := {};
    var todo := visitedLive;
    ghost var done: set<Id> := {};
    while todo != {}
      invariant done == visitedLive - todo && todo <= visitedLive
      invariant allOld == Children(done, fundamental, before)
      invariant allNew == Children(done, fundamental, after)
      decreases |todo|
    {
      var c :| c in todo;
      allOld := AddChildren(allOld, c, fundamental, before, done);
      allNew := AddChildren(allNew, c, fundamental, after, done);
      done := done + {c};
      todo := todo - {c};
    }
    assert done == visitedLive;
    mounted := allNew - allOld;
    unmounted := allOld - allNew;
  }

  /** How `_refresh_sync` records the previous children of a component it builds: on every
      build, overwriting what an earlier build in the same refresh recorded. */
  function RecordBeforeAsWritten(before: map<Id, set<Id>>, c: Id, current: set<Id>): (r: map<Id, set<Id>>)
    ensures r.Keys == before.Keys + {c} && r[c] == current
    ensures forall d :: d in before && d != c ==> r[d] == before[d]
  {
    before[c := current]
  }

  /** The evident intent: the children a component had before the refresh, recorded at its
      first build and kept through later ones. */
  function RecordBefore(before: map<Id, set<Id>>, c: Id, current: set<Id>): (r: map<Id, set<Id>>)
    ensures r.Keys == before.Keys + {c}
    ensures r[c] == if c in before then before[c] else current
    ensures forall d :: d in before ==> r[d] == before[d]
  {
    if c in before then before else before[c := current]
  }

  /** A component with child 10 before the refresh is built twice, first with child 11 and
      then with child 12. As written, 11 (never sent to the client) is reported unmounted and
      10 never is; with the children recorded at the first build, 10 is. */
  lemma AsWrittenReportsWrongUnmount()
    ensures var after := map[1 := {12}];
            var asWritten := RecordBeforeAsWritten(RecordBeforeAsWritten(map[], 1, {10}), 1, {11});
            var intended := RecordBefore(RecordBefore(map[], 1, {10}), 1, {11});
            Children({1}, {}, asWritten) - Children({1}, {}, after) == {11} &&
            Children({1}, {}, intended) - Children({1}, {}, after) == {10}
  {
    var after := map[1 := {12}];
    var asWritten := RecordBeforeAsWritten(RecordBeforeAsWritten(map[], 1, {10}), 1, {11});
    var intended := RecordBefore(RecordBefore(map[], 1, {10}), 1, {11});
    ChildrenStep({}, 1, {}, after);
    ChildrenStep({}, 1, {}, asWritten);
    ChildrenStep({}, 1, {}, intended);
    assert {} + {1} == {1};
  }

  /** What holds between builds of the loop of `_refresh_sync`, relative to the build
      boundaries `start` and populated components `startTriggered` at its start. */
  ghost predicate RefreshInvariant(start: map<Id, set<Id>>, startTriggered: set<Id>, universe: set<Id>,
                                   fundamental: set<Id>, build: (Id, nat) -> BuildStep,
                                   dirty: set<Id>, boundary: map<Id, set<Id>>, triggered: set<Id>,
                                   visited: multiset<Id>, before: map<Id, set<Id>>, seen: set<(Id, nat)>)
  {
    dirty <= universe &&
    (forall c :: c in visited ==> c in universe) &&
    (forall c :: visited[c] <= MaxBuilds) &&
    (forall p :: p in seen ==> p.0 in universe && 1 <= p.1 <= visited[p.0]) &&
    (forall c :: c in before <==> c in visited && c !in fundamental) &&
    (forall c :: c in before ==> before[c] == ChildrenOf(start, c)) &&
    (forall c :: c in visited && c !in fundamental ==> c in boundary && boundary[c] == build(c, visited[c]).children) &&
    (forall c :: !(c in visited && c !in fundamental) ==> ChildrenOf(boundary, c) == ChildrenOf(start, c)) &&
    (forall c :: c in triggered ==> c in startTriggered || c in before) &&
    (forall c :: (c in startTriggered || c in before) && c !in Rearmed(visited, fundamental, build) ==> c in triggered) &&
    (forall c :: c in Rearmed(visited, fundamental, build) && c !in before ==> c !in triggered)
  }

  /** The visit being counted is a build slot not used before. */
  lemma VisitSlot(start: map<Id, set<Id>>, startTriggered: set<Id>, universe: set<Id>,
                  fundamental: set<Id>, build: (Id, nat) -> BuildStep,
                  dirty: set<Id>, boundary: map<Id, set<Id>>, triggered: set<Id>,
                  visited: multiset<Id>, before: map<Id, set<Id>>, seen: set<(Id, nat)>, c: Id)
    requires RefreshInvariant(start, startTriggered, universe, fundamental, build, dirty, boundary, triggered, visited, before, seen)
    requires c in dirty && visited[c] + 1 <= MaxBuilds
    ensures (c, visited[c] + 1) in Slots(universe) && (c, visited[c] + 1) !in seen
    ensures seen <= Slots(universe)
  {
  }

  /** Visiting a fundamental component keeps the invariant. */
  lemma VisitFundamentalPreserves(start: map<Id, set<Id>>, startTriggered: set<Id>, universe: set<Id>,
                                  fundamental: set<Id>, build: (Id, nat) -> BuildStep,
                                  dirty: set<Id>, boundary: map<Id, set<Id>>, triggered: set<Id>,
                                  visited: multiset<Id>, before: map<Id, set<Id>>, seen: set<(Id, nat)>, c: Id)
    requires RefreshInvariant(start, startTriggered, universe, fundamental, build, dirty, boundary, triggered, visited, before, seen)
    requires c in dirty && c in fundamental && visited[c] + 1 <= MaxBuilds
    ensures RefreshInvariant(start, startTriggered, universe, fundamental, build, dirty - {c}, boundary, triggered,
                             visited[c := visited[c] + 1], before, seen + {(c, visited[c] + 1)})
  {
    RearmedStep(visited, fundamental, build, c);
  }

  /** Recording the previous children at a build keeps `before` holding exactly the built
      components, each with its children at the start of the refresh. */
  lemma BeforeStep(start: map<Id, set<Id>>, fundamental: set<Id>, boundary: map<Id, set<Id>>,
                   visited: multiset<Id>, before: map<Id, set<Id>>, c: Id)
    requires forall d :: d in before <==> d in visited && d !in fundamental
    requires forall d :: d in before ==> before[d] == ChildrenOf(start, d)
    requires forall d :: !(d in visited && d !in fundamental) ==> ChildrenOf(boundary, d) == ChildrenOf(start, d)
    requires c !in fundamental
    ensures var visited' := visited[c := visited[c] + 1];
            var before' := RecordBefore(before, c, ChildrenOf(boundary, c));
            (forall d :: d in before' <==> d in visited' && d !in fundamental) &&
            (forall d :: d in before' ==> before'[d] == ChildrenOf(start, d))
  {
  }

  /** Storing the new build boundary of a built component keeps every other boundary. */
  lemma BoundaryStep(start: map<Id, set<Id>>, fundamental: set<Id>, build: (Id, nat) -> BuildStep,
                     boundary: map<Id, set<Id>>, visited: multiset<Id>, c: Id)
    requires forall d :: d in visited && d !in fundamental ==> d in boundary && boundary[d] == build(d, visited[d]).children
    requires forall d :: !(d in visited && d !in fundamental) ==> ChildrenOf(boundary, d) == ChildrenOf(start, d)
    requires c !in fundamental
    ensures var visited' := visited[c := visited[c] + 1];
            var boundary' := boundary[c := build(c, visited[c] + 1).children];
            (forall d :: d in visited' && d !in fundamental ==> d in boundary' && boundary'[d] == build(d, visited'[d]).children) &&
            (forall d :: !(d in visited' && d !in fundamental) ==> ChildrenOf(boundary', d) == ChildrenOf(start, d))
  {
  }

  /** Building a component successfully keeps the invariant. */
  lemma VisitBuiltPreserves(start: map<Id, set<Id>>, startTriggered: set<Id>, universe: set<Id>,
                            fundamental: set<Id>, populate: Id -> set<Id>, build: (Id, nat) -> BuildStep,
                            dirty: set<Id>, boundary: map<Id, set<Id>>, triggered: set<Id>,
                            visited: multiset<Id>, before: map<Id, set<Id>>, seen: set<(Id, nat)>, c: Id)
    requires forall c :: populate(c) <= universe
    requires forall c, k :: build(c, k).buildDirtied <= universe && build(c, k).reconcileDirtied <= universe
    requires RefreshInvariant(start, startTriggered, universe, fundamental, build, dirty, boundary, triggered, visited, before, seen)
    requires c in dirty && c !in fundamental && visited[c] + 1 <= MaxBuilds
    ensures var step := build(c, visited[c] + 1);
            var dirty' := (if c in triggered then dirty - {c} else dirty - {c} + populate(c) - {c}) +
                          step.buildDirtied + step.reconcileDirtied;
            RefreshInvariant(start, startTriggered, universe, fundamental, build, dirty',
                             boundary[c := step.children], (triggered + {c}) - step.reconciled, visited[c := visited[c] + 1],
                             RecordBefore(before, c, ChildrenOf(boundary, c)), seen + {(c, visited[c] + 1)})
  {
    BeforeStep(start, fundamental, boundary, visited, before, c);
    BoundaryStep(start, fundamental, build, boundary, visited, c);
    CountStep(universe, dirty, visited, seen, c);
    RearmedStep(visited, fundamental, build, c);
    TriggeredStep(startTriggered, triggered, before, Rearmed(visited, fundamental, build), c, ChildrenOf(boundary, c),
                  build(c, visited[c] + 1).reconciled);
  }

  /** Counting a visit of a dirty component keeps the counts and used slots consistent. */
  lemma CountStep(universe: set<Id>, dirty: set<Id>, visited: multiset<Id>, seen: set<(Id, nat)>, c: Id)
    requires dirty <= universe && c in dirty
    requires forall d :: d in visited ==> d in universe
    requires forall d :: visited[d] <= MaxBuilds
    requires forall p :: p in seen ==> p.0 in universe && 1 <= p.1 <= visited[p.0]
    requires visited[c] + 1 <= MaxBuilds
    ensures var visited' := visited[c := visited[c] + 1];
            (forall d :: d in visited' ==> d in universe) &&
            (forall d :: visited'[d] <= MaxBuilds) &&
            (forall p :: p in seen + {(c, visited[c] + 1)} ==> p.0 in universe && 1 <= p.1 <= visited'[p.0])
  {
  }

  /** The component just built joins the populated components and `before`; the
      components its reconciliation re-armed leave the populated components. */
  lemma TriggeredStep(startTriggered: set<Id>, triggered: set<Id>, before: map<Id, set<Id>>, rearmed: set<Id>,
                      c: Id, current: set<Id>, reconciled: set<Id>)
    requires forall d :: d in triggered ==> d in startTriggered || d in before
    requires forall d :: (d in startTriggered || d in before) && d !in rearmed ==> d in triggered
    requires forall d :: d in rearmed && d !in before ==> d !in triggered
    ensures var triggered', before' := (triggered + {c}) - reconciled, RecordBefore(before, c, current);
            (forall d :: d in triggered' ==> d in startTriggered || d in before') &&
            (forall d :: (d in startTriggered || d in before') && d !in rearmed + reconciled ==> d in triggered') &&
            (forall d :: d in rearmed + reconciled && d !in before' ==> d !in triggered')
  {
  }

  /* ---------------------------------------------------------------------------------
     Reconciliation
     --------------------------------------------------------------------------------- */

  /** The part of a component reconciliation touches. */
  class Component {
    const id: Id
    var props: map<string, Value>
    var setByCreator: set<string>
    var assignedAfterCreation: set<string>

    constructor (id: Id, props: map<string, Value>, setByCreator: set<string>)
      ensures this.id == id && this.props == props && this.setByCreator == setByCreator
      ensures assignedAfterCreation == {}
    {
      this.id := id;
      this.props := props;
      this.setByCreator := setByCreator;
      assignedAfterCreation := {};
    }
  }

  /** The properties taken from the new component: those its creator set, and those the
      old component's creator set that were not assigned since. */
  function Overridden(oldComponent: Component, newComponent: Component): set<string>
    reads oldComponent, newComponent
  {
    (oldComponent.setByCreator - oldComponent.assignedAfterCreation) + newComponent.setByCreator
  }

  /** Some taken-over property differs in the sense of `values_equal`. */
  predicate PropertiesChanged(names: set<string>, oldProps: map<string, Value>, newProps: map<string, Value>,
                              reconciledNewToOld: map<Id, Id>)
    requires names <= oldProps.Keys && names <= newProps.Keys
  {
    exists n :: n in names && !ValuesEqual(oldProps[n], newProps[n], reconciledNewToOld)
  }

  /** The loop of `_reconcile_component` that looks for a taken-over property whose value
      changed, stopping at the first. */
  method AnyChanged(names: set<string>, oldProps: map<string, Value>, newProps: map<string, Value>,
                    reconciledNewToOld: map<Id, Id>) returns (changed: bool)
    requires names <= oldProps.Keys && names <= newProps.Keys
    ensures changed <==> PropertiesChanged(names, oldProps, newProps, reconciledNewToOld)
  {
    var todo := names;
    while todo != {}
      invariant todo <= names
      invariant forall n :: n in names - todo ==> ValuesEqual(oldProps[n], newProps[n], reconciledNewToOld)
      decreases |todo|
    {
      var n :| n in todo;
      if !ValuesEqual(oldProps[n], newProps[n], reconciledNewToOld) {
        return true;
      }
      todo := todo - {n};
    }
    return false;
  }

  /** Taking over values that are already there never marks a component dirty. */
  lemma SameValuesUnchanged(names: set<string>, oldProps: map<string, Value>, newProps: map<string, Value>,
                            reconciledNewToOld: map<Id, Id>)
    requires names <= oldProps.Keys && names <= newProps.Keys
    requires forall n :: n in names ==> oldProps[n] == newProps[n]
    ensures !PropertiesChanged(names, oldProps, newProps, reconciledNewToOld)
  {
    forall n | n in names
      ensures ValuesEqual(oldProps[n], newProps[n], reconciledNewToOld)
    {
      ValuesEqualReflexive(newProps[n], reconciledNewToOld);
    }
  }

  /** After taking over the values of `names`, reconciling with the same new component
      again finds nothing changed. */
  lemma ReconcileAgainUnchanged(names: set<string>, oldProps: map<string, Value>, newProps: map<string, Value>,
                                reconciledNewToOld: map<Id, Id>)
    requires names <= oldProps.Keys && names <= newProps.Keys
    ensures var merged := oldProps + map n | n in names :: newProps[n];
            !PropertiesChanged(names, merged, newProps, reconciledNewToOld)
  {
    var merged := oldProps + map n | n in names :: newProps[n];
    SameValuesUnchanged(names, merged, newProps, reconciledNewToOld);
  }

  /* ---------------------------------------------------------------------------------
     Fonts
     --------------------------------------------------------------------------------- */

  /** A font family: its name and the files of its four styles, each optional. */
  datatype Font = Font(name: string, regular: Option<string>, bold: Option<string>,
                       italic: Option<string>, boldItalic: Option<string>)

  function Locations(font: Font): seq<Option<string>> {
    [font.regular, font.bold, font.italic, font.boldItalic]
  }

  /** The URL of each style's file once hosted as an asset, in the order regular, bold,
      italic, bold italic; none for a style without a file. */
  function FontUrls(font: Font, host: string -> string): (urls: seq<Option<string>>)
    ensures |urls| == 4
    ensures forall i :: 0 <= i < 4 ==>
              (urls[i].None? <==> Locations(font)[i].None?) &&
              (urls[i].Some? ==> urls[i].value == host(Locations(font)[i].value))
  {
    seq(4, i requires 0 <= i < 4 =>
      match Locations(font)[i]
      case None => None
      case Some(location) => Some(host(location)))
  }

  /** The files of the styles the font has, in style order. */
  function Present(locations: seq<Option<string>>): (r: seq<string>)
    ensures |r| <= |locations|
    ensures forall x :: x in r <==> Some(x) in locations
  {
    if locations == [] then []
    else
      var front := Present(locations[..|locations| - 1]);
      assert locations == locations[..|locations| - 1] + [locations[|locations| - 1]];
      match locations[|locations| - 1]
      case None => front
      case Some(x) => front + [x]
  }

  /** No two registered fonts share a name. */
  predicate FontNamesDistinct(names: map<Font, string>) {
    forall f, g :: f in names && g in names && f != g ==> names[f] != names[g]
  }

  /** `_register_font` as written picks its first candidate: it checks the candidate
      against the registered fonts rather than their names, and a name is never a font. */
  function FontNameAsWritten(names: map<Font, string>, nameSource: nat -> string): (name: string)
    ensures name == nameSource(0)
  {
    nameSource(0)
  }

  /** As written, a second font can be given a name already taken. */
  lemma AsWrittenFontNamesCollide(names: map<Font, string>, nameSource: nat -> string, font: Font, other: Font)
    requires other in names && font !in names && names[other] == nameSource(0)
    ensures !FontNamesDistinct(names[font := FontNameAsWritten(names, nameSource)])
  {
    var r := names[font := FontNameAsWritten(names, nameSource)];
    assert other in r && font in r && other != font && r[other] == r[font];
  }

  /** Giving a new font a name no font has keeps the names distinct. */
  lemma FreshNameKeepsNamesDistinct(names: map<Font, string>, font: Font, name: string)
    requires FontNamesDistinct(names) && font !in names && name !in names.Values
    ensures FontNamesDistinct(names[font := name])
  {
    var r := names[font := name];
    forall f, g | f in r && g in r && f != g
      ensures r[f] != r[g]
    {
      if f == font {
        assert names[g] in names.Values;
      } else if g == font {
        assert names[f] in names.Values;
      }
    }
  }

  /** The name loop of `_register_font` as evidently intended: draws candidates until one
      is not taken. */
  method FreshName(taken: set<string>, nameSource: nat -> string) returns (name: string)
    requires forall i, j :: i != j ==> nameSource(i) != nameSource(j)
    ensures name !in taken
    ensures exists k :: nameSource(k) == name
  {
    var k := 0;
    ghost var tried: set<string> := {};
    while nameSource(k) in taken
      invariant tried == set i | 0 <= i < k :: nameSource(i)
      invariant tried <= taken
      invariant |tried| == k
      decreases |taken| - k
    {
      assert nameSource(k) !in tried;
      tried := tried + {nameSource(k)};
      assert taken == tried + (taken - tried);
      k := k + 1;
    }
    name := nameSource(k);
  }

  /** The asset loop of `_register_font`: a four-slot buffer of URLs, one per style, and
      the files hosted, in style order. */
  method HostFontFiles(font: Font, host: string -> string) returns (urls: seq<Option<string>>, fontAssets: seq<string>)
    ensures urls == FontUrls(font, host)
    ensures fontAssets == Present(Locations(font))
  {
    var locations := Locations(font);
    var buffer := new Option<string>[4](_ => None);
    fontAssets := [];
    for i := 0 to 4
      invariant forall j :: 0 <= j < i ==> buffer[j] == FontUrls(font, host)[j]
      invariant forall j :: i <= j < 4 ==> buffer[j] == None
      invariant fontAssets == Present(locations[..i])
    {
      assert locations[..i + 1][..i] == locations[..i];
      if locations[i].Some? {
        buffer[i] := Some(host(locations[i].value));
        fontAssets := fontAssets + [locations[i].value];
      }
    }
    assert locations[..4] == locations;
    urls := buffer[..];
  }

  lemma UnionUpdate<K, V>(m: map<K, V>, a: map<K, V>, k: K, v: V)
    ensures (m + a)[k := v] == m + a[k := v]
  {
  }

  /** Writes the dirty attributes of one attachment into the delta, in any order. */
  method WriteEntry(delta: map<string, string>, sectionName: string, values: map<string, string>, attrs: set<string>)
    returns (delta': map<string, string>)
    requires attrs <= values.Keys
    ensures delta' == delta + SessionSettings.SectionDelta(sectionName, values, attrs)
  {
    delta' := delta;
    var todo := attrs;
    ghost var done: set<string> := {};
    while todo != {}
      invariant done == attrs - todo && todo <= attrs
      invariant delta' == delta + SessionSettings.SectionDelta(sectionName, values, done)
      decreases |todo|
    {
      var attr :| attr in todo;
      ghost var written := SessionSettings.SectionDelta(sectionName, values, done);
      SessionSettings.SectionDeltaStep(sectionName, values, done, attr);
      UnionUpdate(delta, written, SessionSettings.FlatKey(sectionName, attr), values[attr]);
      delta' := delta'[SessionSettings.FlatKey(sectionName, attr) := values[attr]];
      done := done + {attr};
      todo := todo - {attr};
    }
    assert done == attrs;
  }

  /* ---------------------------------------------------------------------------------
     User settings
     --------------------------------------------------------------------------------- */

  /** A user settings attachment: the section it is stored under, the JSON of each of its
      attributes, and the attributes changed since the last save. */
  class UserSettings {
    const sectionName: string
    const values: map<string, string>
    var dirtyAttributes: set<string>

    constructor (sectionName: string, values: map<string, string>)
      ensures this.sectionName == sectionName && this.values == values && dirtyAttributes == {}
    {
      this.sectionName := sectionName;
      this.values := values;
      dirtyAttributes := {};
    }
  }

  /** The dirty attributes of each attachment, in order. */
  function Snapshot(attachments: seq<UserSettings>): (r: seq<set<string>>)
    reads set i | 0 <= i < |attachments| :: attachments[i]
  {
    seq(|attachments|, i reads attachments requires 0 <= i < |attachments| => attachments[i].dirtyAttributes)
  }

  /** The attachments with dirty attributes, each with those attributes, in order. */
  function DirtyEntries(attachments: seq<UserSettings>, dirty: seq<set<string>>): (r: seq<(UserSettings, set<string>)>)
    requires |dirty| == |attachments|
    ensures |r| <= |attachments|
    ensures forall e :: e in r ==> e.1 != {}
  {
    if attachments == [] then []
    else
      var n := |attachments| - 1;
      DirtyEntries(attachments[..n], dirty[..n]) + (if dirty[n] == {} then [] else [(attachments[n], dirty[n])])
  }

  lemma {:induction false} DirtyEntriesComplete(attachments: seq<UserSettings>, dirty: seq<set<string>>, i: nat)
    requires |dirty| == |attachments| && i < |attachments|
    ensures dirty[i] != {} <==> (attachments[i], dirty[i]) in DirtyEntries(attachments, dirty)
  {
    var n := |attachments| - 1;
    if i < n {
      DirtyEntriesComplete(attachments[..n], dirty[..n], i);
    }
  }

  /** The flat keys and values `_save_settings_now_in_browser` writes for one attachment. */
  function EntryDelta(e: (UserSettings, set<string>)): map<string, string>
    requires e.1 <= e.0.values.Keys
  {
    SessionSettings.SectionDelta(e.0.sectionName, e.0.values, e.1)
  }

  predicate EntriesReadable(unsaved: seq<(UserSettings, set<string>)>)
  {
    forall i :: 0 <= i < |unsaved| ==> unsaved[i].1 <= unsaved[i].0.values.Keys
  }

  /** The delta sent to the browser: every entry's keys, later entries winning. */
  function Delta(unsaved: seq<(UserSettings, set<string>)>): map<string, string>
    requires forall i :: 0 <= i < |unsaved| ==> unsaved[i].1 <= unsaved[i].0.values.Keys
  {
    if unsaved == [] then map[]
    else Delta(unsaved[..|unsaved| - 1]) + EntryDelta(unsaved[|unsaved| - 1])
  }

  /** Entry `e` writes an attribute under the flat key `k`. */
  predicate WritesKey(e: (UserSettings, set<string>), k: string) {
    exists a :: a in e.1 && k == SessionSettings.FlatKey(e.0.sectionName, a)
  }

  lemma EntryDeltaKeys(e: (UserSettings, set<string>), k: string)
    requires e.1 <= e.0.values.Keys
    ensures k in EntryDelta(e) <==> WritesKey(e, k)
  {
    SessionSettings.SectionDeltaContents(e.0.sectionName, e.0.values, e.1);
  }

  /** A key is in the delta exactly when some entry writes an attribute under it. */
  lemma {:induction false} DeltaKeys(unsaved: seq<(UserSettings, set<string>)>, k: string)
    requires forall i :: 0 <= i < |unsaved| ==> unsaved[i].1 <= unsaved[i].0.values.Keys
    ensures k in Delta(unsaved) <==> exists i :: 0 <= i < |unsaved| && WritesKey(unsaved[i], k)
  {
    if unsaved != [] {
      var n := |unsaved| - 1;
      var front := unsaved[..n];
      DeltaKeys(front, k);
      EntryDeltaKeys(unsaved[n], k);
      assert forall i :: 0 <= i < n ==> front[i] == unsaved[i];
    }
  }

  /** A key's value in the delta comes from the last entry that writes it. */
  lemma {:induction false} DeltaLastWriterWins(unsaved: seq<(UserSettings, set<string>)>, i: nat, a: string)
    requires forall j :: 0 <= j < |unsaved| ==> unsaved[j].1 <= unsaved[j].0.values.Keys
    requires i < |unsaved| && a in unsaved[i].1
    requires forall j, b :: i < j < |unsaved| && b in unsaved[j].1 ==>
               SessionSettings.FlatKey(unsaved[j].0.sectionName, b) != SessionSettings.FlatKey(unsaved[i].0.sectionName, a)
    ensures var k := SessionSettings.FlatKey(unsaved[i].0.sectionName, a);
            k in Delta(unsaved) && Delta(unsaved)[k] == unsaved[i].0.values[a]
  {
    var k := SessionSettings.FlatKey(unsaved[i].0.sectionName, a);
    var n := |unsaved| - 1;
    var front := unsaved[..n];
    SessionSettings.SectionDeltaContents(unsaved[n].0.sectionName, unsaved[n].0.values, unsaved[n].1);
    if i < n {
      EntryDeltaKeys(unsaved[n], k);
      assert !WritesKey(unsaved[n], k);
      assert front[i] == unsaved[i];
      forall j, b | i < j < |front| && b in front[j].1
        ensures SessionSettings.FlatKey(front[j].0.sectionName, b) != k
      {
        assert front[j] == unsaved[j];
      }
      DeltaLastWriterWins(front, i, a);
    }
  }

  /* ---------------------------------------------------------------------------------
     The session
     --------------------------------------------------------------------------------- */

  class Session {
    /** Components whose build output may be stale. */
    var dirty: set<Id>
    /** Components whose `on_populate` event has fired. */
    var populateTriggered: set<Id>
    /** The build boundary of each component built so far. */
    var boundary: map<Id, set<Id>>

    var registeredFontNames: map<Font, string>
    var registeredFontAssets: map<Font, seq<string>>
    /** The font registrations sent to the client: name and style URLs. */
    var fontRequests: seq<(string, seq<Option<string>>)>

    var wasClosed: bool
    /** How often the app's session-close handler and the server's after-close hook ran. */
    var closeEvents: nat
    var afterClosedNotices: nat

    var transport: Option<nat>
    /** The transports closed, in order. */
    var closedTransports: seq<nat>
    var connected: bool
    var disconnectedAt: Option<real>

    ghost predicate Valid()
      reads this
    {
      (connected <==> transport.Some?) &&
      FontNamesDistinct(registeredFontNames) &&
      registeredFontAssets.Keys == registeredFontNames.Keys
    }

    constructor ()
      ensures Valid()
      ensures dirty == {} && populateTriggered == {} && boundary == map[]
      ensures registeredFontNames == map[] && registeredFontAssets == map[] && fontRequests == []
      ensures !wasClosed && closeEvents == 0 && afterClosedNotices == 0
      ensures transport == None && closedTransports == [] && !connected && disconnectedAt == None
    {
      dirty := {};
      populateTriggered := {};
      boundary := map[];
      registeredFontNames := map[];
      registeredFontAssets := map[];
      fontRequests := [];
      wasClosed := false;
      closeEvents := 0;
      afterClosedNotices := 0;
      transport := None;
      closedTransports := [];
      connected := false;
      disconnectedAt := None;
    }

    /** `_register_dirty_component`. */
    method RegisterDirtyComponent(c: SessionMatcher.Node, includeChildren: bool)
      modifies this`dirty
      ensures dirty == old(dirty) + (if includeChildren then DirtyClosure(c) else {c.id})
      decreases c
    {
      dirty := dirty + {c.id};
      if !includeChildren || !c.fundamental {
        return;
      }
      for i := 0 to |c.attrs|
        invariant dirty == old(dirty) + {c.id} + ClosureAttrs(c, i)
      {
        for j := 0 to |c.attrs[i].children|
          invariant dirty == old(dirty) + {c.id} + ClosureAttrs(c, i) + ClosureList(c, i, j)
        {
          RegisterDirtyComponent(c.attrs[i].children[j], true);
        }
      }
    }

    /** One build in the loop of `_refresh_sync`: fires `on_populate` unless it is already
        armed off (its handlers marking `populated` dirty, the component itself excepted),
        builds, fails when the build marked the component itself dirty, and otherwise adds
        what reconciliation marked dirty, re-arms `on_populate` of the old components
        reconciliation merged into, and stores the new build boundary. */
    method BuildOnce(c: Id, populated: set<Id>, step: BuildStep) returns (changedState: bool)
      requires c !in dirty
      modifies this`dirty, this`populateTriggered, this`boundary
      ensures populateTriggered == if changedState then old(populateTriggered) + {c}
                                   else (old(populateTriggered) + {c}) - step.reconciled
      ensures changedState <==> c in step.buildDirtied
      ensures !changedState ==>
                dirty == (if c in old(populateTriggered) then old(dirty) else old(dirty) + populated - {c}) +
                         step.buildDirtied + step.reconcileDirtied
      ensures !changedState ==> boundary == old(boundary)[c := step.children]
    {
      if c !in populateTriggered {
        populateTriggered := populateTriggered + {c};
        dirty := dirty + populated;
        dirty := dirty - {c};
      }
      dirty := dirty + step.buildDirtied;
      if c in dirty {
        return true;
      }
      dirty := dirty + step.reconcileDirtied;
      populateTriggered := populateTriggered - step.reconciled;
      boundary := boundary[c := step.children];
      return false;
    }

    /** A parent is built and its reconciliation merges a new component into its child, and
        the child, taken from the dirty set, is built next: the child's `on_populate`
        handlers fire again although they had fired before. */
    method ReconciledChildRepopulates(parent: Id, parentPopulated: set<Id>, parentStep: BuildStep,
                                      child: Id, childPopulated: set<Id>, childStep: BuildStep)
      returns (failed: bool)
      requires parent != child && parent !in dirty && child in populateTriggered
      requires parent !in parentStep.buildDirtied && child in parentStep.reconciled
      modifies this`dirty, this`populateTriggered, this`boundary
      ensures failed <==> child in childStep.buildDirtied
      ensures !failed ==> childPopulated - {child} <= dirty
    {
      var parentChanged := BuildOnce(parent, parentPopulated, parentStep);
      assert !parentChanged && child !in populateTriggered;
      dirty := dirty - {child};
      failed := BuildOnce(child, childPopulated, childStep);
    }

    /** One pass of the loop of `_refresh_sync` for the component `c` taken from the dirty
        set: count the visit, give up after too many, skip fundamental components, and
        otherwise build and record the previous children. */
    method Visit(ghost start: map<Id, set<Id>>, ghost startTriggered: set<Id>, universe: set<Id>,
                 fundamental: set<Id>, populate: Id -> set<Id>, build: (Id, nat) -> BuildStep,
                 c: Id, visited: multiset<Id>, before: map<Id, set<Id>>, ghost seen: set<(Id, nat)>)
      returns (err: Option<RefreshError>, visited': multiset<Id>, before': map<Id, set<Id>>, ghost seen': set<(Id, nat)>)
      requires forall c :: populate(c) <= universe
      requires forall c, k :: build(c, k).buildDirtied <= universe && build(c, k).reconcileDirtied <= universe
      requires RefreshInvariant(start, startTriggered, universe, fundamental, build,
                                dirty, boundary, populateTriggered, visited, before, seen)
      requires c in dirty
      modifies this`dirty, this`populateTriggered, this`boundary
      ensures forall d :: d in visited' ==> d in universe
      ensures err.Some? && err.value.RebuiltTooOften? ==>
                err.value.count == MaxBuilds + 1 && visited'[err.value.component] == MaxBuilds + 1
      ensures err.Some? && err.value.BuildChangedState? ==>
                err.value.component !in fundamental &&
                err.value.component in build(err.value.component, visited'[err.value.component]).buildDirtied
      ensures err.None? ==>
                RefreshInvariant(start, startTriggered, universe, fundamental, build,
                                 dirty, boundary, populateTriggered, visited', before', seen') &&
                seen < seen' <= Slots(universe)
    {
      ghost var dirty0, boundary0, triggered0 := dirty, boundary, populateTriggered;
      dirty := dirty - {c};
      visited' := visited[c := visited[c] + 1];
      before' := before;
      var count := visited'[c];
      if count > MaxBuilds {
        return Some(RebuiltTooOften(c, count)), visited', before', seen;
      }
      VisitSlot(start, startTriggered, universe, fundamental, build, dirty0, boundary0, triggered0, visited, before, seen, c);
      seen' := seen + {(c, count)};
      if c in fundamental {
        VisitFundamentalPreserves(start, startTriggered, universe, fundamental, build,
                                  dirty0, boundary0, triggered0, visited, before, seen, c);
        return None, visited', before', seen';
      }
      var previous := ChildrenOf(boundary, c);
      var changedState := BuildOnce(c, populate(c), build(c, count));
      if changedState {
        return Some(BuildChangedState(c)), visited', before', seen';
      }
      before' := RecordBefore(before, c, previous);
      VisitBuiltPreserves(start, startTriggered, universe, fundamental, populate, build,
                          dirty0, boundary0, triggered0, visited, before, seen, c);
      err := None;
    }

    /** The build loop of `_refresh_sync`: builds dirty components until none is left,
        counting the visits of each and recording, at its first build, the children each
        built component had before the refresh. `universe` holds every component of the
        session, `build(c, k)` is the `k`-th build of `c` in this refresh and `populate(c)`
        the components the `on_populate` handlers of `c` mark dirty. */
    method BuildDirty(universe: set<Id>, fundamental: set<Id>, populate: Id -> set<Id>, build: (Id, nat) -> BuildStep)
      returns (err: Option<RefreshError>, visited: multiset<Id>, before: map<Id, set<Id>>)
      requires dirty <= universe
      requires forall c :: populate(c) <= universe
      requires forall c, k :: build(c, k).buildDirtied <= universe && build(c, k).reconcileDirtied <= universe
      modifies this`dirty, this`populateTriggered, this`boundary
      ensures forall c :: c in visited ==> c in universe
      ensures err.Some? && err.value.RebuiltTooOften? ==>
                err.value.count == MaxBuilds + 1 && visited[err.value.component] == MaxBuilds + 1
      ensures err.Some? && err.value.BuildChangedState? ==>
                err.value.component !in fundamental &&
                err.value.component in build(err.value.component, visited[err.value.component]).buildDirtied
      ensures err.None? ==> dirty == {} && forall c :: visited[c] <= MaxBuilds
      ensures err.None? ==> forall c :: c in before <==> c in visited && c !in fundamental
      ensures err.None? ==> forall c :: c in before ==> before[c] == ChildrenOf(old(boundary), c)
      ensures err.None? ==> forall c :: c in populateTriggered ==> c in old(populateTriggered) || c in before
      ensures err.None? ==> forall c ::
                (c in old(populateTriggered) || c in before) && c !in Rearmed(visited, fundamental, build) ==>
                c in populateTriggered
      ensures err.None? ==> forall c :: c in Rearmed(visited, fundamental, build) && c !in before ==>
                c !in populateTriggered
      ensures err.None? ==> forall c :: c in visited && c !in fundamental ==>
                c in boundary && boundary[c] == build(c, visited[c]).children
      ensures err.None? ==> forall c :: !(c in visited && c !in fundamental) ==>
                ChildrenOf(boundary, c) == ChildrenOf(old(boundary), c)
    {
      visited := multiset{};
      before := map[];
      ghost var seen: set<(Id, nat)> := {};
      while dirty != {}
        invariant RefreshInvariant(old(boundary), old(populateTriggered), universe, fundamental, build,
                                   dirty, boundary, populateTriggered, visited, before, seen)
        invariant seen <= Slots(universe)
        decreases Slots(universe) - seen
      {
        var c :| c in dirty;
        ghost var seen0 := seen;
        err, visited, before, seen := Visit(old(boundary), old(populateTriggered), universe, fundamental,
                                            populate, build, c, visited, before, seen);
        if err.Some? {
          return;
        }
        assert Slots(universe) - seen < Slots(universe) - seen0;
      }
      err := None;
    }

    /** `_refresh_sync`: the build loop, then the mount diff over the visited components
        that are still in the component tree (`live`). Children are compared with the
        build boundaries the components had when the refresh began. */
    method RefreshSync(universe: set<Id>, fundamental: set<Id>, populate: Id -> set<Id>,
                       build: (Id, nat) -> BuildStep, live: Id -> bool)
      returns (r: Result<Refreshed, RefreshError>, ghost visits: multiset<Id>)
      requires dirty <= universe
      requires forall c :: populate(c) <= universe
      requires forall c, k :: build(c, k).buildDirtied <= universe && build(c, k).reconcileDirtied <= universe
      modifies this`dirty, this`populateTriggered, this`boundary
      ensures forall c :: c in visits ==> c in universe
      ensures r.Failure? && r.error.RebuiltTooOften? ==>
                r.error.count == MaxBuilds + 1 && visits[r.error.component] == MaxBuilds + 1
      ensures r.Failure? && r.error.BuildChangedState? ==>
                r.error.component !in fundamental &&
                r.error.component in build(r.error.component, visits[r.error.component]).buildDirtied
      ensures r.Success? ==> dirty == {} && forall c :: visits[c] <= MaxBuilds
      ensures r.Success? ==> forall c :: c in populateTriggered ==>
                c in old(populateTriggered) || (c in visits && c !in fundamental)
      ensures r.Success? ==> forall c ::
                (c in old(populateTriggered) || (c in visits && c !in fundamental)) &&
                c !in Rearmed(visits, fundamental, build) ==>
                c in populateTriggered
      ensures r.Success? ==> forall c :: c in Rearmed(visits, fundamental, build) && !(c in visits && c !in fundamental) ==>
                c !in populateTriggered
      ensures r.Success? ==> forall c :: c in visits && c !in fundamental ==>
                c in boundary && boundary[c] == build(c, visits[c]).children
      ensures r.Success? ==> forall c :: !(c in visits && c !in fundamental) ==>
                ChildrenOf(boundary, c) == ChildrenOf(old(boundary), c)
      ensures r.Success? ==> r.value.visitedLive == set c | c in visits && live(c)
      ensures r.Success? ==>
                r.value.mounted == Children(r.value.visitedLive, fundamental, boundary) -
                                   Children(r.value.visitedLive, fundamental, old(boundary))
      ensures r.Success? ==>
                r.value.unmounted == Children(r.value.visitedLive, fundamental, old(boundary)) -
                                     Children(r.value.visitedLive, fundamental, boundary)
    {
      var err, visited, before := BuildDirty(universe, fundamental, populate, build);
      visits := visited;
      if err.Some? {
        r := Failure(err.value);
        return;
      }
      var visitedLive := set c | c in visited && live(c);
      var mounted, unmounted := MountDiff(visitedLive, fundamental, before, boundary);
      ChildrenAgree(visitedLive, fundamental, before, old(boundary));
      r := Success(Refreshed(visitedLive, mounted, unmounted));
    }

    /** `_reconcile_component`, without the handling of attribute bindings. */
    method ReconcileComponent(oldComponent: Component, newComponent: Component, reconciledNewToOld: map<Id, Id>)
      requires oldComponent != newComponent
      requires Overridden(oldComponent, newComponent) <= oldComponent.props.Keys
      requires Overridden(oldComponent, newComponent) <= newComponent.props.Keys
      modifies this`dirty, this`populateTriggered, oldComponent`props
      ensures oldComponent.props.Keys == old(oldComponent.props.Keys)
      ensures forall n :: n in oldComponent.props ==>
                oldComponent.props[n] == if n in old(Overridden(oldComponent, newComponent)) then newComponent.props[n]
                                         else old(oldComponent.props[n])
      ensures populateTriggered == old(populateTriggered) - {oldComponent.id}
      ensures dirty == old(dirty) +
                (if old(PropertiesChanged(Overridden(oldComponent, newComponent), oldComponent.props,
                                          newComponent.props, reconciledNewToOld))
                 then {oldComponent.id} else {})
    {
      var names := Overridden(oldComponent, newComponent);
      var overriddenValues := map n | n in names :: newComponent.props[n];
      var changed := AnyChanged(names, oldComponent.props, newComponent.props, reconciledNewToOld);
      if changed {
        dirty := dirty + {oldComponent.id};
      }
      oldComponent.props := oldComponent.props + overriddenValues;
      populateTriggered := populateTriggered - {oldComponent.id};
    }

    /** `_register_font` with the name check the code evidently intends: candidates are
        drawn from `nameSource` until one is not the name of a registered font. `host` gives
        the URL of a font file once hosted as an asset. */
    method RegisterFont(font: Font, host: string -> string, nameSource: nat -> string) returns (name: string)
      requires Valid()
      requires forall i, j :: i != j ==> nameSource(i) != nameSource(j)
      modifies this`registeredFontNames, this`registeredFontAssets, this`fontRequests
      ensures Valid()
      ensures font in old(registeredFontNames) ==>
                name == old(registeredFontNames)[font] &&
                registeredFontNames == old(registeredFontNames) &&
                registeredFontAssets == old(registeredFontAssets) &&
                fontRequests == old(fontRequests)
      ensures font !in old(registeredFontNames) ==>
                name !in old(registeredFontNames).Values &&
                registeredFontNames == old(registeredFontNames)[font := name] &&
                registeredFontAssets == old(registeredFontAssets)[font := Present(Locations(font))] &&
                fontRequests == old(fontRequests) + [(name, FontUrls(font, host))]
    {
      if font in registeredFontNames {
        return registeredFontNames[font];
      }
      name := FreshName(registeredFontNames.Values, nameSource);
      var urls, fontAssets := HostFontFiles(font, host);
      fontRequests := fontRequests + [(name, urls)];
      FreshNameKeepsNamesDistinct(registeredFontNames, font, name);
      registeredFontNames := registeredFontNames[font := name];
      registeredFontAssets := registeredFontAssets[font := fontAssets];
    }

    /** The collection step of `_save_settings_now`: every attachment with dirty attributes
        is listed with them, in order, and its dirty set is cleared. */
    method CollectUnsaved(attachments: seq<UserSettings>) returns (unsaved: seq<(UserSettings, set<string>)>)
      requires forall i, j :: 0 <= i < j < |attachments| ==> attachments[i] != attachments[j]
      modifies set i | 0 <= i < |attachments| :: attachments[i]`dirtyAttributes
      ensures unsaved == DirtyEntries(attachments, old(Snapshot(attachments)))
      ensures forall i :: 0 <= i < |attachments| ==> attachments[i].dirtyAttributes == {}
    {
      ghost var snapshot := Snapshot(attachments);
      unsaved := [];
      for i := 0 to |attachments|
        invariant unsaved == DirtyEntries(attachments[..i], snapshot[..i])
        invariant forall j :: 0 <= j < i ==> attachments[j].dirtyAttributes == {}
        invariant forall j :: i <= j < |attachments| ==> attachments[j].dirtyAttributes == snapshot[j]
      {
        var settings := attachments[i];
        assert attachments[..i + 1][..i] == attachments[..i];
        assert snapshot[..i + 1][..i] == snapshot[..i];
        if settings.dirtyAttributes != {} {
          unsaved := unsaved + [(settings, settings.dirtyAttributes)];
          settings.dirtyAttributes := {};
        }
      }
      assert attachments[..|attachments|] == attachments;
      assert snapshot[..|attachments|] == snapshot;
    }

    /** `_save_settings_now_in_browser`: the delta of flat keys sent to the client. */
    method SaveSettingsInBrowser(unsaved: seq<(UserSettings, set<string>)>) returns (delta: map<string, string>)
      requires forall i :: 0 <= i < |unsaved| ==> unsaved[i].1 <= unsaved[i].0.values.Keys
      ensures delta == Delta(unsaved)
    {
      delta := map[];
      for i := 0 to |unsaved|
        invariant delta == Delta(unsaved[..i])
      {
        var (settings, dirtyAttributes) := unsaved[i];
        delta := WriteEntry(delta, settings.sectionName, settings.values, dirtyAttributes);
        assert unsaved[..i + 1][..i] == unsaved[..i];
      }
      assert unsaved[..|unsaved|] == unsaved;
    }

    /** `_save_settings_now` for a session in a browser: nothing is sent when no attachment
        has dirty attributes. */
    method SaveSettingsNow(attachments: seq<UserSettings>) returns (saved: Option<map<string, string>>)
      requires forall i, j :: 0 <= i < j < |attachments| ==> attachments[i] != attachments[j]
      requires forall i :: 0 <= i < |attachments| ==> attachments[i].dirtyAttributes <= attachments[i].values.Keys
      modifies set i | 0 <= i < |attachments| :: attachments[i]`dirtyAttributes
      ensures var unsaved := DirtyEntries(attachments, old(Snapshot(attachments)));
              EntriesReadable(unsaved) &&
              saved == if unsaved == [] then None else Some(Delta(unsaved))
      ensures forall i :: 0 <= i < |attachments| ==> attachments[i].dirtyAttributes == {}
    {
      ghost var snapshot := Snapshot(attachments);
      var unsaved := CollectUnsaved(attachments);
      DirtyEntriesReadable(attachments, snapshot);
      if unsaved == [] {
        return None;
      }
      var delta := SaveSettingsInBrowser(unsaved);
      return Some(delta);
    }

    /** The `_transport` setter. */
    method SetTransport(t: Option<nat>, now: real)
      requires Valid()
      modifies this`transport, this`closedTransports, this`connected, this`disconnectedAt
      ensures Valid()
      ensures transport == t
      ensures closedTransports == old(closedTransports) + (if old(transport).Some? then [old(transport).value] else [])
      ensures connected == t.Some?
      ensures disconnectedAt == if t.None? then Some(now) else None
    {
      if transport.Some? {
        closedTransports := closedTransports + [transport.value];
      }
      transport := t;
      if t.None? {
        connected := false;
        disconnectedAt := Some(now);
      } else {
        connected := true;
        disconnectedAt := None;
      }
    }

    /** `_close`: runs once; fires the close event, saves the settings, drops the
        transport and tells the server. */
    method Close(attachments: seq<UserSettings>, now: real) returns (saved: Option<map<string, string>>)
      requires Valid()
      requires forall i, j :: 0 <= i < j < |attachments| ==> attachments[i] != attachments[j]
      requires forall i :: 0 <= i < |attachments| ==> attachments[i].dirtyAttributes <= attachments[i].values.Keys
      modifies this`wasClosed, this`closeEvents, this`afterClosedNotices
      modifies this`transport, this`closedTransports, this`connected, this`disconnectedAt
      modifies set i | 0 <= i < |attachments| :: attachments[i]`dirtyAttributes
      ensures Valid()
      ensures old(wasClosed) ==>
                saved == None && unchanged(this) &&
                forall i :: 0 <= i < |attachments| ==> attachments[i].dirtyAttributes == old(attachments[i].dirtyAttributes)
      ensures !old(wasClosed) ==> forall i :: 0 <= i < |attachments| ==> attachments[i].dirtyAttributes == {}
      ensures !old(wasClosed) ==>
                wasClosed && closeEvents == old(closeEvents) + 1 && afterClosedNotices == old(afterClosedNotices) + 1 &&
                transport == None && !connected &&
                disconnectedAt == (if old(transport).Some? then Some(now) else old(disconnectedAt)) &&
                closedTransports == old(closedTransports) + (if old(transport).Some? then [old(transport).value] else []) &&
                (var unsaved := DirtyEntries(attachments, old(Snapshot(attachments)));
                 EntriesReadable(unsaved) && saved == if unsaved == [] then None else Some(Delta(unsaved)))
    {
      if wasClosed {
        return None;
      }
      saved := BeginClose(attachments);
      FinishClose(now);
    }

    /** The start of `_close`: marks the session closed, fires the close event and saves the
        settings. */
    method BeginClose(attachments: seq<UserSettings>) returns (saved: Option<map<string, string>>)
      requires Valid()
      requires forall i, j :: 0 <= i < j < |attachments| ==> attachments[i] != attachments[j]
      requires forall i :: 0 <= i < |attachments| ==> attachments[i].dirtyAttributes <= attachments[i].values.Keys
      modifies this`wasClosed, this`closeEvents
      modifies set i | 0 <= i < |attachments| :: attachments[i]`dirtyAttributes
      ensures Valid()
      ensures wasClosed && closeEvents == old(closeEvents) + 1
      ensures forall i :: 0 <= i < |attachments| ==> attachments[i].dirtyAttributes == {}
      ensures var unsaved := DirtyEntries(attachments, old(Snapshot(attachments)));
              EntriesReadable(unsaved) && saved == if unsaved == [] then None else Some(Delta(unsaved))
    {
      wasClosed := true;
      closeEvents := closeEvents + 1;
      saved := SaveSettingsNow(attachments);
    }

    /** The end of `_close`: drops the transport, then tells the server. */
    method FinishClose(now: real)
      requires Valid()
      modifies this`transport, this`closedTransports, this`connected, this`disconnectedAt, this`afterClosedNotices
      ensures Valid()
      ensures transport == None && !connected && afterClosedNotices == old(afterClosedNotices) + 1
      ensures disconnectedAt == if old(transport).Some? then Some(now) else old(disconnectedAt)
      ensures closedTransports == old(closedTransports) + (if old(transport).Some? then [old(transport).value] else [])
    {
      if transport.Some? {
        SetTransport(None, now);
      }
      afterClosedNotices := afterClosedNotices + 1;
    }
  }

  lemma {:induction false} DirtyEntriesReadable(attachments: seq<UserSettings>, dirty: seq<set<string>>)
    requires |dirty| == |attachments|
    requires forall i :: 0 <= i < |attachments| ==> dirty[i] <= attachments[i].values.Keys
    ensures EntriesReadable(DirtyEntries(attachments, dirty))
  {
    if attachments != [] {
      var n := |attachments| - 1;
      DirtyEntriesReadable(attachments[..n], dirty[..n]);
    }
  }

  /** Closing twice fires the close event once. */
  method CloseTwice(s: Session, attachments: seq<UserSettings>, now: real)
    requires s.Valid() && !s.wasClosed
    requires forall i, j :: 0 <= i < j < |attachments| ==> attachments[i] != attachments[j]
    requires forall i :: 0 <= i < |attachments| ==> attachments[i].dirtyAttributes <= attachments[i].values.Keys
    modifies s, set i | 0 <= i < |attachments| :: attachments[i]`dirtyAttributes
    ensures s.closeEvents == old(s.closeEvents) + 1 && s.afterClosedNotices == old(s.afterClosedNotices) + 1
  {
    var first := s.Close(attachments, now);
    var second := s.Close(attachments, now);
    assert second == None;
  }

  /** Registering the same font twice returns the same name and sends one registration. */
  method FontRegisteredOnce(s: Session, font: Font, host: string -> string, nameSource: nat -> string)
    returns (first: string, second: string)
    requires s.Valid()
    requires forall i, j :: i != j ==> nameSource(i) != nameSource(j)
    modifies s
    ensures s.Valid() && first == second
    ensures font in s.registeredFontNames && s.registeredFontNames[font] == first
    ensures |s.fontRequests| <= |old(s.fontRequests)| + 1
  {
    first := s.RegisterFont(font, host, nameSource);
    second := s.RegisterFont(font, host, nameSource);
  }
}
