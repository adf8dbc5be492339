/** Finding the pairs of components of an old and a new build that represent the same
    component: matches by position in the tree ("topological") for unkeyed components,
    and matches by key across the whole trees, with detection of duplicate keys. */
module SessionMatcher {
  import opened Wrappers

  type Id = nat

  /** A component: its identity, its class, its key, whether it is fundamental (never
      built) and its child-containing attributes, in declaration order. */
  datatype Node = Node(id: Id, typ: string, key: Option<string>, fundamental: bool, attrs: seq<Attr>)

  /** The components held by one child-containing attribute: one for a component-valued
      attribute, the components of a list, none otherwise. */
  datatype Attr = Attr(children: seq<Node>)

  /** Every component reachable from `n` through child-containing attributes, `n` included. */
  ghost function Nodes(n: Node): set<Node>
    decreases n
  {
    {n} + (set i, j, x | 0 <= i < |n.attrs| && 0 <= j < |n.attrs[i].children| && x in Nodes(n.attrs[i].children[j]) :: x)
  }

  /** The keys carried by some component of `s`. */
  ghost function KeysOf(s: set<Node>): set<string> {
    set x | x in s && x.key.Some? :: x.key.value
  }

  datatype MatchError = DuplicateKey(key: string, first: Node, second: Node)

  /** A reported duplicate is real: two different components carrying the same key. */
  predicate GenuineClash(e: MatchError) {
    e.first.key == Some(e.key) && e.second.key == Some(e.key) && e.first.id != e.second.id
  }

  /** `register_component_by_key`: unkeyed components are ignored; registering the same
      component again is allowed; a different component under a registered key is an error. */
  function RegisterByKey(byKey: map<string, Node>, c: Node): (r: Result<map<string, Node>, MatchError>)
    ensures c.key.None? ==> r == Success(byKey)
    ensures c.key.Some? ==> (r.Failure? <==> c.key.value in byKey && byKey[c.key.value].id != c.id)
    ensures r.Failure? ==> r.error == DuplicateKey(c.key.value, byKey[c.key.value], c)
    ensures r.Success? && c.key.Some? ==> r.value.Keys == byKey.Keys + {c.key.value} && r.value[c.key.value] == c
    ensures r.Success? ==> forall k :: k in byKey && Some(k) != c.key ==> k in r.value && r.value[k] == byKey[k]
  {
    match c.key
    case None => Success(byKey)
    case Some(k) =>
      if k in byKey && byKey[k].id != c.id then Failure(DuplicateKey(k, byKey[k], c))
      else Success(byKey[k := c])
  }

  /** Every registered component sits under its own key and belongs to the tree scanned. */
  ghost predicate ByKeyValid(byKey: map<string, Node>, tree: set<Node>) {
    forall k :: k in byKey ==> byKey[k].key == Some(k) && byKey[k] in tree
  }

  /** What the matcher promises of each pair it yields. */
  predicate MatchedPair(p: (Node, Node)) {
    p.0.id != p.1.id && p.0.typ == p.1.typ && p.0.key == p.1.key
  }

  lemma ChildNodes(n: Node, i: nat, j: nat)
    requires i < |n.attrs| && j < |n.attrs[i].children|
    ensures Nodes(n.attrs[i].children[j]) <= Nodes(n)
  {
  }

  /** A component's subtree lies within the subtree of any component containing it. */
  lemma {:induction false} NodesTransitive(root: Node, x: Node)
    requires x in Nodes(root)
    ensures Nodes(x) <= Nodes(root)
    decreases root
  {
    if x != root {
      var i, j :| 0 <= i < |root.attrs| && 0 <= j < |root.attrs[i].children| && x in Nodes(root.attrs[i].children[j]);
      NodesTransitive(root.attrs[i].children[j], x);
      ChildNodes(root, i, j);
    }
  }

  lemma SelfInNodes(n: Node)
    ensures n in Nodes(n)
  {
  }

  lemma RegisteredKeys(byKey: map<string, Node>, tree: set<Node>)
    requires ByKeyValid(byKey, tree)
    ensures byKey.Keys <= KeysOf(tree)
  {
    forall k | k in byKey
      ensures k in KeysOf(tree)
    {
      assert byKey[k] in tree && byKey[k].key == Some(k);
    }
  }

  /** Every keyed component of `s` has its key among `keys`. */
  ghost predicate KeysCovered(s: set<Node>, keys: set<string>) {
    forall x :: x in s && x.key.Some? ==> x.key.value in keys
  }

  lemma CoveredUnion(a: set<Node>, b: set<Node>, keys: set<string>, keys': set<string>)
    requires KeysCovered(a, keys) && keys <= keys' && KeysCovered(b, keys')
    ensures KeysCovered(a + b, keys')
  {
  }

  lemma CoveredSubset(a: set<Node>, b: set<Node>, keys: set<string>)
    requires a <= b && KeysCovered(b, keys)
    ensures KeysCovered(a, keys)
  {
  }

  /** Scanning every child's subtree, and the component itself if asked, covers the
      component's subtree. */
  lemma SubtreeScanned(c: Node, includeSelf: bool, scanned: set<Node>)
    requires forall i, j :: 0 <= i < |c.attrs| && 0 <= j < |c.attrs[i].children| ==> Nodes(c.attrs[i].children[j]) <= scanned
    requires includeSelf ==> c in scanned
    ensures (if includeSelf then Nodes(c) else Nodes(c) - {c}) <= scanned
  {
    forall x | x in Nodes(c) && x != c
      ensures x in scanned
    {
      var i, j :| 0 <= i < |c.attrs| && 0 <= j < |c.attrs[i].children| && x in Nodes(c.attrs[i].children[j]);
    }
  }

  datatype Side = OldSide | NewSide


  /** The state the nested helpers of `_find_components_for_reconciliation` share: the
      components of each tree by key and the topological matches found so far. */
  class Matcher {
    ghost const oldTree: set<Node>
    ghost const newTree: set<Node>
    var oldByKey: map<string, Node>
    var newByKey: map<string, Node>
    var topo: seq<(Node, Node)>

    ghost predicate Valid()
      reads this
    {
      && ByKeyValid(oldByKey, oldTree)
      && ByKeyValid(newByKey, newTree)
      && forall p :: p in topo ==> MatchedPair(p) && p.0.key.None? && p.0 in oldTree && p.1 in newTree
    }

    ghost function Tree(side: Side): set<Node> {
      if side == OldSide then oldTree else newTree
    }

    /** Only the by-key map of `side` differs from the given state. */
    predicate OnlySideChanged(side: Side, oldByKey0: map<string, Node>, newByKey0: map<string, Node>, topo0: seq<(Node, Node)>)
      reads this
    {
      (side == OldSide ==> newByKey == newByKey0) && (side == NewSide ==> oldByKey == oldByKey0) && topo == topo0
    }

    /** The components of one side by key. */
    function ByKey(side: Side): map<string, Node>
      reads this
    {
      if side == OldSide then oldByKey else newByKey
    }

    constructor (ghost oldTree: set<Node>, ghost newTree: set<Node>)
      ensures Valid() && this.oldTree == oldTree && this.newTree == newTree
      ensures oldByKey == map[] && newByKey == map[] && topo == []
    {
      this.oldTree := oldTree;
      this.newTree := newTree;
      oldByKey := map[];
      newByKey := map[];
      topo := [];
    }

    /** `register_component_by_key` on the map of one side. */
    method Register(side: Side, c: Node) returns (r: Result<(), MatchError>)
      requires Valid() && c in Tree(side)
      modifies this
      ensures Valid()
      ensures old(oldByKey).Keys <= oldByKey.Keys && old(newByKey).Keys <= newByKey.Keys
      ensures r.Failure? ==> GenuineClash(r.error) && r.error.first in Tree(side) && r.error.second in Tree(side)
      ensures var res := RegisterByKey(old(ByKey(side)), c);
              && (r.Failure? <==> res.Failure?)
              && (r.Failure? ==> r.error == res.error)
              && ByKey(side) == if res.Success? then res.value else old(ByKey(side))
      ensures OnlySideChanged(side, old(oldByKey), old(newByKey), old(topo))
    {
      if side == OldSide {
        var res := RegisterByKey(oldByKey, c);
        if res.Failure? {
          return Failure(res.error);
        }
        oldByKey := res.value;
      } else {
        var res := RegisterByKey(newByKey, c);
        if res.Failure? {
          return Failure(res.error);
        }
        newByKey := res.value;
      }
      r := Success(());
    }

    /** `key_scan`: registers every component below `c` (and `c` itself if asked). */
    method KeyScan(side: Side, c: Node, includeSelf: bool) returns (r: Result<(), MatchError>)
      requires Valid() && Nodes(c) <= Tree(side)
      modifies this
      ensures Valid()
      ensures old(oldByKey).Keys <= oldByKey.Keys && old(newByKey).Keys <= newByKey.Keys
      ensures r.Failure? ==> GenuineClash(r.error) && r.error.first in Tree(side) && r.error.second in Tree(side)
      ensures OnlySideChanged(side, old(oldByKey), old(newByKey), old(topo))
      ensures r.Success? ==> KeysCovered(if includeSelf then Nodes(c) else Nodes(c) - {c}, ByKey(side).Keys)
      decreases c
    {
      ghost var scanned: set<Node> := {};
      if includeSelf {
        SelfInNodes(c);
        r := Register(side, c);
        if r.Failure? {
          return;
        }
        scanned := {c};
      }
      for i := 0 to |c.attrs|
        invariant Valid()
        invariant old(oldByKey).Keys <= oldByKey.Keys && old(newByKey).Keys <= newByKey.Keys
        invariant OnlySideChanged(side, old(oldByKey), old(newByKey), old(topo))
        invariant KeysCovered(scanned, ByKey(side).Keys) && (includeSelf ==> c in scanned)
        invariant forall i', j' :: 0 <= i' < i && 0 <= j' < |c.attrs[i'].children| ==> Nodes(c.attrs[i'].children[j']) <= scanned
      {
        for j := 0 to |c.attrs[i].children|
          invariant Valid()
          invariant old(oldByKey).Keys <= oldByKey.Keys && old(newByKey).Keys <= newByKey.Keys
          invariant OnlySideChanged(side, old(oldByKey), old(newByKey), old(topo))
          invariant KeysCovered(scanned, ByKey(side).Keys) && (includeSelf ==> c in scanned)
          invariant forall i', j' :: 0 <= i' < i && 0 <= j' < |c.attrs[i'].children| ==> Nodes(c.attrs[i'].children[j']) <= scanned
          invariant forall j' :: 0 <= j' < j ==> Nodes(c.attrs[i].children[j']) <= scanned
        {
          ChildNodes(c, i, j);
          ghost var keys0 := ByKey(side).Keys;
          r := KeyScan(side, c.attrs[i].children[j], true);
          if r.Failure? {
            return;
          }
          CoveredUnion(scanned, Nodes(c.attrs[i].children[j]), keys0, ByKey(side).Keys);
          scanned := scanned + Nodes(c.attrs[i].children[j]);
        }
      }
      SubtreeScanned(c, includeSelf, scanned);
      CoveredSubset(if includeSelf then Nodes(c) else Nodes(c) - {c}, scanned, ByKey(side).Keys);
      r := Success(());
    }

    /** `chain_to_children`: pairs up the children of two matched components attribute by
        attribute and position by position; the unpaired rest on either side is only
        scanned for keys. */
    method Chain(o: Node, n: Node) returns (r: Result<(), MatchError>)
      requires Valid() && Nodes(o) <= oldTree && Nodes(n) <= newTree
      modifies this
      ensures Valid()
      ensures old(oldByKey).Keys <= oldByKey.Keys && old(newByKey).Keys <= newByKey.Keys
      ensures r.Failure? ==> GenuineClash(r.error) && ((r.error.first in oldTree && r.error.second in oldTree) ||
                                                        (r.error.first in newTree && r.error.second in newTree))
      ensures old(topo) <= topo
      decreases o, n, 0
    {
      for i := 0 to |n.attrs|
        invariant Valid()
        invariant old(oldByKey).Keys <= oldByKey.Keys && old(newByKey).Keys <= newByKey.Keys
        invariant old(topo) <= topo
      {
        var oldChildren := if i < |o.attrs| then o.attrs[i].children else [];
        var newChildren := n.attrs[i].children;
        var common := if |oldChildren| < |newChildren| then |oldChildren| else |newChildren|;
        for j := 0 to common
          invariant Valid()
          invariant old(oldByKey).Keys <= oldByKey.Keys && old(newByKey).Keys <= newByKey.Keys
          invariant old(topo) <= topo
        {
          ChildNodes(o, i, j);
          ChildNodes(n, i, j);
          r := Worker(o.attrs[i].children[j], n.attrs[i].children[j]);
          if r.Failure? {
            return;
          }
        }
        for j := common to |oldChildren|
          invariant Valid()
          invariant old(oldByKey).Keys <= oldByKey.Keys && old(newByKey).Keys <= newByKey.Keys
          invariant old(topo) <= topo
        {
          ChildNodes(o, i, j);
          r := KeyScan(OldSide, oldChildren[j], true);
          if r.Failure? {
            return;
          }
        }
        for j := common to |newChildren|
          invariant Valid()
          invariant old(oldByKey).Keys <= oldByKey.Keys && old(newByKey).Keys <= newByKey.Keys
          invariant old(topo) <= topo
        {
          ChildNodes(n, i, j);
          r := KeyScan(NewSide, newChildren[j], true);
          if r.Failure? {
            return;
          }
        }
      }
      r := Success(());
    }

    /** `worker`: a component never matches itself; both are registered by key; differing
        classes or keys end the topological search below them; keyed pairs are left to the
        key matching; an unkeyed pair of the same class is a topological match. */
    method Worker(o: Node, n: Node) returns (r: Result<(), MatchError>)
      requires Valid() && Nodes(o) <= oldTree && Nodes(n) <= newTree
      modifies this
      ensures Valid()
      ensures old(oldByKey).Keys <= oldByKey.Keys && old(newByKey).Keys <= newByKey.Keys
      ensures r.Failure? ==> GenuineClash(r.error) && ((r.error.first in oldTree && r.error.second in oldTree) ||
                                                        (r.error.first in newTree && r.error.second in newTree))
      ensures old(topo) <= topo
      ensures o.id != n.id && o.typ == n.typ && o.key.None? && n.key.None? ==>
                |old(topo)| < |topo| && topo[|old(topo)|] == (o, n)
      ensures !(o.id != n.id && o.typ == n.typ && o.key.None? && n.key.None?) ==> topo == old(topo)
      ensures o.id == n.id ==> r == Success(()) && oldByKey == old(oldByKey) && newByKey == old(newByKey)
      ensures r.Success? && o.id != n.id ==>
                (o.key.Some? ==> o.key.value in oldByKey) && (n.key.Some? ==> n.key.value in newByKey)
      decreases o, n, 1
    {
      if o.id == n.id {
        return Success(());
      }
      SelfInNodes(o);
      SelfInNodes(n);
      r := Register(OldSide, o);
      if r.Failure? {
        return;
      }
      r := Register(NewSide, n);
      if r.Failure? {
        return;
      }
      if o.typ != n.typ || o.key != n.key {
        r := KeyScan(OldSide, o, false);
        if r.Failure? {
          return;
        }
        r := KeyScan(NewSide, n, false);
        return;
      }
      if o.key.Some? {
        return Success(());
      }
      topo := topo + [(o, n)];
      ghost var topo0 := topo;
      r := Chain(o, n);
      assert topo0 <= topo;
    }
  }

  /** The key matches found so far: valid pairs from the two trees, under keys already
      handled, each key at most once. */
  ghost predicate KeyPairsValid(keyPairs: seq<(Node, Node)>, processed: set<string>, oldTree: set<Node>, newTree: set<Node>) {
    && (forall p :: p in keyPairs ==> MatchedPair(p) && p.0.key.Some? && p.0.key.value in processed
                                      && p.0 in oldTree && p.1 in newTree)
    && (forall i, j :: 0 <= i < j < |keyPairs| ==> keyPairs[i].0.key != keyPairs[j].0.key)
  }

  lemma AppendKeyPair(keyPairs: seq<(Node, Node)>, processed: set<string>, p: (Node, Node), key: string,
                      oldTree: set<Node>, newTree: set<Node>)
    requires KeyPairsValid(keyPairs, processed, oldTree, newTree) && key !in processed
    requires MatchedPair(p) && p.0.key == Some(key) && p.0 in oldTree && p.1 in newTree
    ensures KeyPairsValid(keyPairs + [p], processed + {key}, oldTree, newTree)
  {
    var all := keyPairs + [p];
    forall i, j | 0 <= i < j < |all|
      ensures all[i].0.key != all[j].0.key
    {
      if j == |keyPairs| {
        assert all[i] in keyPairs;
      }
    }
  }

  /** The trees the matcher works on are those of the two roots. */
  ghost predicate RootedAt(m: Matcher, oldRoot: Node, newRoot: Node) {
    m.oldTree == Nodes(oldRoot) && m.newTree == Nodes(newRoot)
  }

  /** The key loop's step for one key present in both trees: the pair is yielded unless it
      is one component or its classes differ, and then the matching goes on below it. */
  method MatchKey(m: Matcher, ghost oldRoot: Node, ghost newRoot: Node, key: string,
                  pairs: seq<(Node, Node)>, ghost processed: set<string>)
    returns (r: Result<seq<(Node, Node)>, MatchError>, ghost processedAfter: set<string>)
    requires m.Valid() && RootedAt(m, oldRoot, newRoot)
    requires key in m.oldByKey && key in m.newByKey && key !in processed
    requires KeyPairsValid(pairs, processed, m.oldTree, m.newTree)
    modifies m
    ensures m.Valid()
    ensures old(m.oldByKey).Keys <= m.oldByKey.Keys && old(m.newByKey).Keys <= m.newByKey.Keys
    ensures processedAfter <= processed + {key}
    ensures r.Success? ==> KeyPairsValid(r.value, processedAfter, m.oldTree, m.newTree)
    ensures var o, n := old(m.oldByKey[key]), old(m.newByKey[key]);
            && (o.id == n.id || o.typ != n.typ ==> r == Success(pairs))
            && (r.Success? && o.id != n.id && o.typ == n.typ ==> r.value == pairs + [(o, n)])
    ensures r.Failure? ==> GenuineClash(r.error) && ((r.error.first in m.oldTree && r.error.second in m.oldTree) ||
                                                     (r.error.first in m.newTree && r.error.second in m.newTree))
  {
    var o := m.oldByKey[key];
    var n := m.newByKey[key];
    if o.id == n.id || o.typ != n.typ {
      return Success(pairs), processed;
    }
    AppendKeyPair(pairs, processed, (o, n), key, m.oldTree, m.newTree);
    NodesTransitive(oldRoot, o);
    NodesTransitive(newRoot, n);
    processedAfter := processed + {key};
    var res := m.Chain(o, n);
    if res.Failure? {
      return Failure(res.error), processedAfter;
    }
    r := Success(pairs + [(o, n)]);
  }

  /** One round of the key loop: every key of `keys` yields its pair of components, unless
      they are the same component or of different classes, and the matching goes on
      below each yielded pair. */
  method MatchKeys(m: Matcher, ghost oldRoot: Node, ghost newRoot: Node, keys: set<string>,
                   keyPairs: seq<(Node, Node)>, ghost processed: set<string>)
    returns (r: Result<seq<(Node, Node)>, MatchError>, ghost processedAfter: set<string>)
    requires m.Valid() && RootedAt(m, oldRoot, newRoot)
    requires keys <= m.oldByKey.Keys * m.newByKey.Keys && processed !! keys
    requires KeyPairsValid(keyPairs, processed, m.oldTree, m.newTree)
    modifies m
    ensures m.Valid()
    ensures old(m.oldByKey).Keys <= m.oldByKey.Keys && old(m.newByKey).Keys <= m.newByKey.Keys
    ensures processedAfter <= processed + keys
    ensures r.Success? ==> KeyPairsValid(r.value, processedAfter, m.oldTree, m.newTree)
    ensures r.Success? ==> keyPairs <= r.value
    ensures r.Success? ==> forall i :: |keyPairs| <= i < |r.value| ==> r.value[i].0.key.Some? && r.value[i].0.key.value in keys
    ensures r.Failure? ==> GenuineClash(r.error) && ((r.error.first in m.oldTree && r.error.second in m.oldTree) ||
                                                     (r.error.first in m.newTree && r.error.second in m.newTree))
  {
    var pairs := keyPairs;
    processedAfter := processed;
    var todo := keys;
    while todo != {}
      invariant m.Valid()
      invariant old(m.oldByKey).Keys <= m.oldByKey.Keys && old(m.newByKey).Keys <= m.newByKey.Keys
      invariant todo <= keys && processedAfter <= processed + keys && processedAfter !! todo
      invariant KeyPairsValid(pairs, processedAfter, m.oldTree, m.newTree)
      invariant keyPairs <= pairs
      invariant forall i :: |keyPairs| <= i < |pairs| ==> pairs[i].0.key.Some? && pairs[i].0.key.value in keys - todo
      decreases todo
    {
      var key :| key in todo;
      todo := todo - {key};
      var res;
      res, processedAfter := MatchKey(m, oldRoot, newRoot, key, pairs, processedAfter);
      if res.Failure? {
        return res, processedAfter;
      }
      pairs := res.value;
    }
    r := Success(pairs);
  }

  /** Key matches first, topological matches after: the order and uniqueness promised. */
  lemma MatchOrder(keyPairs: seq<(Node, Node)>, topo: seq<(Node, Node)>, processed: set<string>,
                   oldTree: set<Node>, newTree: set<Node>)
    requires KeyPairsValid(keyPairs, processed, oldTree, newTree)
    requires forall p :: p in topo ==> MatchedPair(p) && p.0.key.None? && p.0 in oldTree && p.1 in newTree
    ensures var all := keyPairs + topo;
            && (forall p :: p in all ==> MatchedPair(p) && p.0 in oldTree && p.1 in newTree)
            && (forall i, j :: 0 <= i < j < |all| && all[i].0.key.None? ==> all[j].0.key.None?)
            && (forall i, j :: 0 <= i < j < |all| && all[i].0.key.Some? ==> all[i].0.key != all[j].0.key)
  {
    var all := keyPairs + topo;
    assert forall k :: 0 <= k < |keyPairs| ==> all[k] == keyPairs[k];
    assert forall k :: |keyPairs| <= k < |all| ==> all[k] == topo[k - |keyPairs|];
  }

  /** The key loop of `_find_components_for_reconciliation`: rounds of key matching until
      a round registers no key present in both trees that was not matched before. */
  method MatchAllKeys(m: Matcher, ghost oldRoot: Node, ghost newRoot: Node)
    returns (r: Result<seq<(Node, Node)>, MatchError>, ghost processed: set<string>)
    requires m.Valid() && RootedAt(m, oldRoot, newRoot)
    modifies m
    ensures m.Valid()
    ensures r.Success? ==> KeyPairsValid(r.value, processed, m.oldTree, m.newTree)
    ensures r.Failure? ==> GenuineClash(r.error) && ((r.error.first in m.oldTree && r.error.second in m.oldTree) ||
                                                     (r.error.first in m.newTree && r.error.second in m.newTree))
  {
    var keyPairs: seq<(Node, Node)> := [];
    processed := {};
    var newKeyMatches := m.oldByKey.Keys * m.newByKey.Keys;
    var allKeyMatches := newKeyMatches;
    RegisteredKeys(m.oldByKey, m.oldTree);

    while newKeyMatches != {}
      invariant m.Valid()
      invariant newKeyMatches <= allKeyMatches <= m.oldByKey.Keys * m.newByKey.Keys
      invariant allKeyMatches <= KeysOf(m.oldTree)
      invariant processed <= allKeyMatches - newKeyMatches
      invariant KeyPairsValid(keyPairs, processed, m.oldTree, m.newTree)
      decreases KeysOf(m.oldTree) - allKeyMatches, |newKeyMatches|
    {
      var round;
      round, processed := MatchKeys(m, oldRoot, newRoot, newKeyMatches, keyPairs, processed);
      if round.Failure? {
        return Failure(round.error), processed;
      }
      keyPairs := round.value;
      newKeyMatches := m.oldByKey.Keys * m.newByKey.Keys - allKeyMatches;
      allKeyMatches := allKeyMatches + newKeyMatches;
      RegisteredKeys(m.oldByKey, m.oldTree);
    }
    r := Success(keyPairs);
  }

  /** `_find_components_for_reconciliation`: the key matches (found in rounds, since
      matching the children of a key match can register further keys), then the
      topological matches. */
  method FindMatches(oldRoot: Node, newRoot: Node) returns (r: Result<seq<(Node, Node)>, MatchError>)
    ensures r.Success? ==> forall p :: p in r.value ==> MatchedPair(p) && p.0 in Nodes(oldRoot) && p.1 in Nodes(newRoot)
    ensures r.Success? ==> forall i, j :: 0 <= i < j < |r.value| && r.value[i].0.key.None? ==> r.value[j].0.key.None?
    ensures r.Success? ==> forall i, j :: 0 <= i < j < |r.value| && r.value[i].0.key.Some? ==> r.value[i].0.key != r.value[j].0.key
    ensures r.Failure? ==> GenuineClash(r.error) && ((r.error.first in Nodes(oldRoot) && r.error.second in Nodes(oldRoot)) ||
                                                     (r.error.first in Nodes(newRoot) && r.error.second in Nodes(newRoot)))
  {
    var m := new Matcher(Nodes(oldRoot), Nodes(newRoot));
    SelfInNodes(oldRoot);
    SelfInNodes(newRoot);
    var res := m.Worker(oldRoot, newRoot);
    if res.Failure? {
      return Failure(res.error);
    }

    var keys;
    ghost var processed;
    keys, processed := MatchAllKeys(m, oldRoot, newRoot);
    if keys.Failure? {
      return Failure(keys.error);
    }
    var keyPairs := keys.value;
    MatchOrder(keyPairs, m.topo, processed, m.oldTree, m.newTree);
    r := Success(keyPairs + m.topo);
  }
}
