/**
 The nested mutable map of pkg/brickmap/brick_map.go: maps are heap objects, changed in place
 while a cursor walks down them.
 */
module BrickMap {
  import opened Wrappers
  import opened BrickSpec

  /** One `map[string]interface{}`. */
  class MapNode {
    var entries: map<string, Slot>

    constructor ()
      ensures entries == map[]
    {
      entries := map[];
    }
  }

  /** A value held by a map: a nested map by reference, or anything else. */
  datatype Slot = Plain(text: string) | Nested(node: MapNode)

  /** A tree of maps: its root, the map found at each path, and what the tree contains. */
  datatype Tree = Tree(root: MapNode, at: map<Path, MapNode>, contents: Contents)

  ghost function Nodes(t: Tree): set<MapNode> {
    set p | p in t.at :: t.at[p]
  }

  ghost predicate Matches(s: Slot, p: Path, t: Tree) {
    && p in t.contents
    && match s
       case Plain(text) => t.contents[p] == Atom(text) && p !in t.at
       case Nested(node) => t.contents[p] == Dict && p in t.at && t.at[p] == node
  }

  /** The entries of the map at each path. */
  type Entries = map<Path, map<string, Slot>>

  ghost function EntriesOf(t: Tree): Entries
    reads Nodes(t)
  {
    map p | p in t.at :: t.at[p].entries
  }

  function Parent(p: Path): Path
    requires p != []
  {
    p[..|p| - 1]
  }

  function Last(p: Path): string
    requires p != []
  {
    p[|p| - 1]
  }

  ghost predicate Unshared(at: map<Path, MapNode>) {
    forall p, q :: p in at && q in at && at[p] == at[q] ==> p == q
  }

  ghost predicate EntriesMatch(t: Tree, e: Entries) {
    forall p, k :: p in e && k in e[p] ==> Matches(e[p][k], p + [k], t)
  }

  ghost predicate IsEntry(p: Path, e: Entries) {
    p != [] && Parent(p) in e && Last(p) in e[Parent(p)]
  }

  ghost predicate AllEntries(t: Tree, e: Entries) {
    forall p :: p in t.contents ==> IsEntry(p, e)
  }

  ghost predicate NodesPresent(t: Tree) {
    forall p :: p in t.at && p != [] ==> p in t.contents
  }

  /** No map is shared, the entries of each map are the paths below it, and nothing else is present. */
  ghost predicate Shape(t: Tree, e: Entries) {
    && [] in t.at && t.at[[]] == t.root && e.Keys == t.at.Keys
    && Unshared(t.at) && EntriesMatch(t, e) && AllEntries(t, e) && NodesPresent(t)
  }

  ghost predicate ValidTree(t: Tree)
    reads Nodes(t)
  {
    Shape(t, EntriesOf(t))
  }

  /** What a path of a valid tree holds is an entry of the map one key shorter. */
  lemma {:induction false} PresentIsEntry(t: Tree, e: Entries, p: Path)
    requires Shape(t, e) && p in t.contents
    ensures IsEntry(p, e) && Matches(e[Parent(p)][Last(p)], p, t)
  {
    hide EntriesMatch, AllEntries, Unshared, NodesPresent, Matches;
    EntryIfPresent(t, e, p);
    ShapeMatches(t, e, Parent(p), Last(p));
    assert p == Parent(p) + [Last(p)];
  }

  lemma {:induction false} EntryIfPresent(t: Tree, e: Entries, p: Path)
    requires AllEntries(t, e) && p in t.contents
    ensures IsEntry(p, e)
  {
  }

  /** The contents of a valid tree are well formed, and a path is a map exactly when a node stands there. */
  lemma {:induction false} ShapeWellFormed(t: Tree, e: Entries)
    requires Shape(t, e)
    ensures WellFormed(t.contents) && [] !in t.contents
    ensures forall p :: p in t.at <==> p == [] || (p in t.contents && t.contents[p] == Dict)
  {
    forall p ensures p in t.at <==> p == [] || (p in t.contents && t.contents[p] == Dict) {
      NodeIsDict(t, e, p);
    }
    forall p | p in t.contents
        ensures p != [] && (|p| > 1 ==> p[..|p| - 1] in t.contents && t.contents[p[..|p| - 1]] == Dict) {
      PresentIsEntry(t, e, p);
      NodeIsDict(t, e, Parent(p));
    }
  }

  lemma {:induction false} NodeIsDict(t: Tree, e: Entries, p: Path)
    requires Shape(t, e)
    ensures p in t.at <==> p == [] || (p in t.contents && t.contents[p] == Dict)
  {
    if p in t.contents {
      PresentIsEntry(t, e, p);
    }
  }

  // --- storing and removing one entry ---------------------------------------------------------------

  /** The tree hung below `path`. */
  ghost function AtBelow(path: Path, at: map<Path, MapNode>): map<Path, MapNode> {
    map q | q in (set r | r in at :: path + r) :: at[q[|path|..]]
  }

  ghost function AtWithout(at: map<Path, MapNode>, path: Path): map<Path, MapNode> {
    map q | q in at && !(path <= q) :: at[q]
  }

  ghost function ValueOf(s: Slot, sub: Tree): Value {
    match s case Plain(text) => Value(Atom(text), map[]) case Nested(_) => Value(Dict, sub.contents)
  }

  ghost function Grafted(t: Tree, path: Path, s: Slot, sub: Tree): Tree {
    Tree(t.root, if s.Plain? then AtWithout(t.at, path) else AtWithout(t.at, path) + AtBelow(path, sub.at),
         PutAt(t.contents, path, ValueOf(s, sub)))
  }

  lemma {:induction false} GraftedAt(t: Tree, path: Path, s: Slot, sub: Tree, q: Path)
    ensures var at := Grafted(t, path, s, sub).at;
      && (!(path <= q) ==> (q in at <==> q in t.at) && (q in t.at ==> at[q] == t.at[q]))
      && (path <= q ==> (q in at <==> s.Nested? && q[|path|..] in sub.at) && (q in at ==> at[q] == sub.at[q[|path|..]]))
  {
    if path <= q {
      assert q == path + q[|path|..];
      forall r: Path | path + r == q ensures r == q[|path|..] {
      }
    } else {
      forall r: Path ensures path + r != q {
      }
    }
  }

  /** The maps hung in with a slot. */
  ghost function Hung(s: Slot, sub: Tree): set<MapNode> {
    if s.Nested? then Nodes(sub) else {}
  }

  /** A slot that can be stored: plain, or the root of a valid tree none of whose maps is in `t` already. */
  ghost predicate Storable(t: Tree, s: Slot, sub: Tree)
    reads Hung(s, sub)
  {
    (s.Nested? ==> ValidTree(sub) && sub.root == s.node) && Hung(s, sub) !! Nodes(t)
  }

  lemma {:induction false} GraftedNodes(t: Tree, path: Path, s: Slot, sub: Tree)
    ensures Nodes(Grafted(t, path, s, sub)) <= Nodes(t) + Hung(s, sub)
  {
    var g := Grafted(t, path, s, sub);
    forall q | q in g.at ensures g.at[q] in Nodes(t) + Hung(s, sub) {
      GraftedAt(t, path, s, sub, q);
    }
  }

  /** The entries after storing `s` under `key` of the map at `front`. */
  ghost predicate EntriesAfterPut(g: Tree, front: Path, key: string, s: Slot, e: Entries, f: Entries, after: Entries) {
    after.Keys == g.at.Keys && front in e &&
    forall p :: p in after ==>
      var path := front + [key];
      if path <= p then p[|path|..] in f && after[p] == f[p[|path|..]]
      else p in e && after[p] == if p == front then e[p][key := s] else e[p]
  }

  lemma {:induction false} OneLonger(path: Path, front: Path, key: string, p: Path, k: string)
    requires path == front + [key]
    ensures path <= p + [k] <==> path <= p || (p == front && k == key)
    ensures path <= p ==> (p + [k])[|path|..] == p[|path|..] + [k] && p + [k] != path
    ensures !(path <= front) && (p + [k] == path <==> p == front && k == key)
  {
    if p + [k] == path {
      assert (p + [k])[..|p|] == p && path[..|front|] == front;
      assert (p + [k])[|p|] == k && path[|front|] == key;
    }
  }

  /** The facts about one path of the grafted tree. */
  lemma {:induction false} GraftedPoint(t: Tree, path: Path, s: Slot, sub: Tree, q: Path)
    requires s.Nested? ==> WellFormed(sub.contents) && [] !in sub.contents
    ensures var g := Grafted(t, path, s, sub);
      && (!(path <= q) ==> (q in g.contents <==> q in t.contents))
      && (!(path <= q) && q in t.contents ==> g.contents[q] == t.contents[q])
      && (q == path ==> q in g.contents && g.contents[q] == (if s.Plain? then Atom(s.text) else Dict))
      && (path <= q && q != path ==> (q in g.contents <==> s.Nested? && q[|path|..] in sub.contents)
                                      && (q in g.contents ==> g.contents[q] == sub.contents[q[|path|..]]))
  {
    PutAtPoint(t.contents, path, ValueOf(s, sub), q);
  }

  /** A slot at a path outside the replaced subtree still matches. */
  lemma {:induction false} OutsideMatches(t: Tree, path: Path, s: Slot, sub: Tree, slot: Slot, q: Path)
    requires s.Nested? ==> WellFormed(sub.contents) && [] !in sub.contents
    requires !(path <= q) && Matches(slot, q, t)
    ensures Matches(slot, q, Grafted(t, path, s, sub))
  {
    GraftedPoint(t, path, s, sub, q);
    GraftedAt(t, path, s, sub, q);
  }

  /** A slot of the tree hung in matches at its new path. */
  lemma {:induction false} InsideMatches(t: Tree, path: Path, s: Slot, sub: Tree, slot: Slot, r: Path)
    requires s.Nested? && WellFormed(sub.contents) && [] !in sub.contents && r != []
    requires Matches(slot, r, sub)
    ensures Matches(slot, path + r, Grafted(t, path, s, sub))
  {
    GraftedPoint(t, path, s, sub, path + r);
    GraftedAt(t, path, s, sub, path + r);
    assert (path + r)[|path|..] == r;
  }

  lemma {:induction false} PutKeepsMatches(t: Tree, e: Entries, front: Path, key: string, s: Slot, sub: Tree,
          f: Entries, after: Entries, p: Path, k: string)
    requires Shape(t, e) && (s.Nested? ==> Shape(sub, f) && sub.root == s.node)
    requires EntriesAfterPut(Grafted(t, front + [key], s, sub), front, key, s, e, f, after)
    requires p in after && k in after[p]
    ensures Matches(after[p][k], p + [k], Grafted(t, front + [key], s, sub))
  {
    var path := front + [key];
    hide Grafted, Shape, WellFormed;
    if s.Nested? { SubFacts(sub, f); }
    OneLonger(path, front, key, p, k);
    GraftedAt(t, path, s, sub, p);
    if path <= p {
      var r := p[|path|..];
      ShapeMatches(sub, f, r, k);
      InsideMatches(t, path, s, sub, f[r][k], r + [k]);
      assert path + (r + [k]) == p + [k];
    } else if p == front && k == key {
      GraftedPoint(t, path, s, sub, path);
      GraftedAt(t, path, s, sub, path);
      assert path[|path|..] == [];
    } else {
      ShapeMatches(t, e, p, k);
      OutsideMatches(t, path, s, sub, e[p][k], p + [k]);
    }
  }

  lemma {:induction false} SubFacts(sub: Tree, f: Entries)
    requires Shape(sub, f)
    ensures WellFormed(sub.contents) && [] !in sub.contents && [] in sub.at && sub.at[[]] == sub.root
  {
    ShapeWellFormed(sub, f);
  }

  lemma {:induction false} ShapeMatches(t: Tree, e: Entries, p: Path, k: string)
    requires Shape(t, e) && p in e && k in e[p]
    ensures Matches(e[p][k], p + [k], t)
  {
    hide Matches, Unshared, AllEntries, NodesPresent;
  }

  /** Storing an entry keeps the tree shape. */
  lemma {:induction false} PutKeepsShape(t: Tree, e: Entries, front: Path, key: string, s: Slot, sub: Tree, f: Entries,
          after: Entries)
    requires Shape(t, e) && front in t.at
    requires s.Nested? ==> Shape(sub, f) && sub.root == s.node && Nodes(sub) !! Nodes(t)
    requires EntriesAfterPut(Grafted(t, front + [key], s, sub), front, key, s, e, f, after)
    ensures Shape(Grafted(t, front + [key], s, sub), after)
  {
    var path, g := front + [key], Grafted(t, front + [key], s, sub);
    assert [] in g.at && g.at[[]] == g.root by {
      GraftedAt(t, path, s, sub, []);
    }
    assert EntriesMatch(g, after) by {
      hide *;
      EntriesMatchIf(t, e, front, key, s, sub, f, after, g);
    }
    assert Unshared(g.at) by {
      hide *;
      UnsharedIf(t, e, path, s, sub, f, g);
    }
    assert AllEntries(g, after) by {
      hide *;
      AllEntriesIf(t, e, front, key, s, sub, f, after, g);
    }
    assert NodesPresent(g) by {
      hide *;
      NodesPresentIf(t, e, path, s, sub, f, g);
    }
    assert after.Keys == g.at.Keys;
    hide Unshared, EntriesMatch, AllEntries, NodesPresent, Grafted;
  }

  lemma {:induction false} EntriesMatchIf(t: Tree, e: Entries, front: Path, key: string, s: Slot, sub: Tree,
          f: Entries, after: Entries, g: Tree)
    requires Shape(t, e) && (s.Nested? ==> Shape(sub, f) && sub.root == s.node)
    requires g == Grafted(t, front + [key], s, sub) && EntriesAfterPut(g, front, key, s, e, f, after)
    ensures EntriesMatch(g, after)
  {
    hide Shape, Grafted, EntriesAfterPut, Matches;
    forall p, k | p in after && k in after[p] ensures Matches(after[p][k], p + [k], g) {
      PutKeepsMatches(t, e, front, key, s, sub, f, after, p, k);
    }
  }

  lemma {:induction false} UnsharedIf(t: Tree, e: Entries, path: Path, s: Slot, sub: Tree, f: Entries, g: Tree)
    requires Shape(t, e) && (s.Nested? ==> Shape(sub, f) && Nodes(sub) !! Nodes(t))
    requires g == Grafted(t, path, s, sub)
    ensures Unshared(g.at)
  {
    forall p, q | p in g.at && q in g.at && g.at[p] == g.at[q] ensures p == q {
      hide *;
      NodesDiffer(t, e, path, s, sub, f, g, p, q);
    }
  }

  /** Where a node of the grafted tree comes from. */
  lemma {:induction false} NodeOrigin(t: Tree, path: Path, s: Slot, sub: Tree, g: Tree, p: Path)
    requires g == Grafted(t, path, s, sub) && p in g.at
    ensures if path <= p then s.Nested? && p[|path|..] in sub.at && g.at[p] == sub.at[p[|path|..]] &&
        g.at[p] in Nodes(sub)
            else p in t.at && g.at[p] == t.at[p] && g.at[p] in Nodes(t)
  {
    hide Grafted;
    GraftedAt(t, path, s, sub, p);
  }

  lemma {:induction false} NodesDiffer(t: Tree, e: Entries, path: Path, s: Slot, sub: Tree, f: Entries, g: Tree,
          p: Path, q: Path)
    requires Shape(t, e) && (s.Nested? ==> Shape(sub, f) && Nodes(sub) !! Nodes(t))
    requires g == Grafted(t, path, s, sub) && p in g.at && q in g.at && g.at[p] == g.at[q]
    ensures p == q
  {
    hide Grafted, Nodes, EntriesMatch, AllEntries, NodesPresent;
    NodeOrigin(t, path, s, sub, g, p);
    NodeOrigin(t, path, s, sub, g, q);
    assert path <= p <==> path <= q;
    if path <= p {
      assert p == path + p[|path|..] && q == path + q[|path|..];
    }
  }

  lemma {:induction false} AllEntriesIf(t: Tree, e: Entries, front: Path, key: string, s: Slot, sub: Tree, f: Entries,
          after: Entries, g: Tree)
    requires Shape(t, e) && front in t.at && (s.Nested? ==> Shape(sub, f))
    requires g == Grafted(t, front + [key], s, sub) && EntriesAfterPut(g, front, key, s, e, f, after)
    ensures AllEntries(g, after)
  {
    forall q | q in g.contents ensures IsEntry(q, after) {
      hide *;
      EntryAfter(t, e, front, key, s, sub, f, after, q);
    }
  }

  lemma {:induction false} EntryAfter(t: Tree, e: Entries, front: Path, key: string, s: Slot, sub: Tree, f: Entries,
          after: Entries, q: Path)
    requires Shape(t, e) && front in t.at && (s.Nested? ==> Shape(sub, f))
    requires EntriesAfterPut(Grafted(t, front + [key], s, sub), front, key, s, e, f, after)
    requires q in Grafted(t, front + [key], s, sub).contents
    ensures IsEntry(q, after)
  {
    hide Grafted, Matches, Unshared, EntriesMatch, NodesPresent, AllEntries;
    var path := front + [key];
    if s.Nested? { SubFacts(sub, f); }
    GraftedPoint(t, path, s, sub, q);
    if q == path {
      assert Parent(q) == front && Last(q) == key;
      GraftedAt(t, path, s, sub, front);
    } else if path <= q {
      InsideEntry(t, front, key, s, sub, e, f, after, q);
    } else {
      EntryIfPresent(t, e, q);
      OneLonger(path, front, key, Parent(q), Last(q));
      assert q == Parent(q) + [Last(q)];
      GraftedAt(t, path, s, sub, Parent(q));
    }
  }

  lemma {:induction false} InsideEntry(t: Tree, front: Path, key: string, s: Slot, sub: Tree, e: Entries, f: Entries,
          after: Entries, q: Path)
    requires s.Nested? && Shape(sub, f)
    requires EntriesAfterPut(Grafted(t, front + [key], s, sub), front, key, s, e, f, after)
    requires front + [key] <= q && q != front + [key] && q[|front| + 1..] in sub.contents
    ensures IsEntry(q, after)
  {
    hide Grafted, Matches, Unshared, EntriesMatch, NodesPresent, AllEntries;
    var path := front + [key];
    var r := q[|path|..];
    EntryIfPresent(sub, f, r);
    assert path <= Parent(q);
    assert Parent(r) == Parent(q)[|path|..] && Last(r) == Last(q);
    GraftedAt(t, path, s, sub, Parent(q));
  }

  lemma {:induction false} NodesPresentIf(t: Tree, e: Entries, path: Path, s: Slot, sub: Tree, f: Entries, g: Tree)
    requires Shape(t, e) && (s.Nested? ==> Shape(sub, f))
    requires g == Grafted(t, path, s, sub)
    ensures NodesPresent(g)
  {
    if s.Nested? { SubFacts(sub, f); }
    forall q | q in g.at && q != [] ensures q in g.contents {
      hide Grafted, EntriesMatch, AllEntries, Unshared;
      GraftedAt(t, path, s, sub, q);
      GraftedPoint(t, path, s, sub, q);
    }
  }

  // --- dropping one entry -----------------------------------------------------------------------------

  ghost function Pruned(t: Tree, path: Path): Tree {
    Tree(t.root, AtWithout(t.at, path), Without(t.contents, path))
  }

  /** The entries after dropping `key` from the map at `front`. */
  ghost predicate EntriesAfterDrop(g: Tree, front: Path, key: string, e: Entries, after: Entries) {
    after.Keys == g.at.Keys && front in e &&
    forall p :: p in after ==> p in e && after[p] == if p == front then e[p] - {key} else e[p]
  }

  /** Dropping an entry keeps the tree shape. */
  lemma {:induction false} DropKeepsShape(t: Tree, e: Entries, front: Path, key: string, after: Entries)
    requires Shape(t, e) && front in t.at
    requires EntriesAfterDrop(Pruned(t, front + [key]), front, key, e, after)
    ensures Shape(Pruned(t, front + [key]), after)
  {
    var path, g := front + [key], Pruned(t, front + [key]);
    assert EntriesMatch(g, after) && AllEntries(g, after) by {
      hide *;
      DropKeepsEntries(t, e, front, key, after, g);
    }
    assert Unshared(g.at) && NodesPresent(g) by {
      hide EntriesMatch, AllEntries;
    }
    hide Unshared, NodesPresent, EntriesMatch, AllEntries;
  }

  lemma {:induction false} DropKeepsEntries(t: Tree, e: Entries, front: Path, key: string, after: Entries, g: Tree)
    requires Shape(t, e) && front in t.at && g == Pruned(t, front + [key])
    requires EntriesAfterDrop(g, front, key, e, after)
    ensures EntriesMatch(g, after) && AllEntries(g, after)
  {
    hide Shape, Matches, IsEntry, EntriesAfterDrop;
    forall p, k | p in after && k in after[p] ensures Matches(after[p][k], p + [k], g) {
      hide *;
      DroppedMatches(t, e, front, key, after, p, k);
    }
    forall q | q in g.contents ensures IsEntry(q, after) {
      hide *;
      DroppedEntry(t, e, front, key, after, q);
    }
  }

  lemma {:induction false} DroppedMatches(t: Tree, e: Entries, front: Path, key: string, after: Entries, p: Path,
          k: string)
    requires Shape(t, e) && front in t.at
    requires EntriesAfterDrop(Pruned(t, front + [key]), front, key, e, after) && p in after && k in after[p]
    ensures Matches(after[p][k], p + [k], Pruned(t, front + [key]))
  {
    hide Shape;
    ShapeMatches(t, e, p, k);
    OneLonger(front + [key], front, key, p, k);
  }

  lemma {:induction false} DroppedEntry(t: Tree, e: Entries, front: Path, key: string, after: Entries, q: Path)
    requires Shape(t, e) && front in t.at
    requires EntriesAfterDrop(Pruned(t, front + [key]), front, key, e, after) && q in Pruned(t, front + [key]).contents
    ensures IsEntry(q, after)
  {
    hide EntriesMatch, AllEntries, Unshared, NodesPresent;
    EntryIfPresent(t, e, q);
    OneLonger(front + [key], front, key, Parent(q), Last(q));
    assert q == Parent(q) + [Last(q)];
  }

  // --- one step on the heap ------------------------------------------------------------------------------

  /** Stores one entry of the map at `front`. */
  method Put(ghost t: Tree, ghost front: Path, node: MapNode, key: string, s: Slot, ghost sub: Tree)
          returns (ghost g: Tree)
    requires ValidTree(t) && front in t.at && t.at[front] == node && Storable(t, s, sub)
    modifies node
    ensures ValidTree(g) && g.root == t.root && g.contents == PutAt(t.contents, front + [key], ValueOf(s, sub))
    ensures Nodes(g) <= Nodes(t) + Hung(s, sub)
    ensures front in g.at && g.at[front] == node && node.entries == old(node.entries)[key := s]
  {
    ghost var e, f := EntriesOf(t), EntriesOf(sub);
    g := Grafted(t, front + [key], s, sub);
    hide *;
    Snapshot(t);
    Snapshot(sub);
    NodesHas(t, front);
    StorableMeans(t, s, sub);
    node.entries := node.entries[key := s];
    PutEntries(t, front, node, key, s, sub, e, f);
    PutKeepsShape(t, e, front, key, s, sub, f, EntriesOf(g));
    Snapshot(g);
    GraftedNodes(t, front + [key], s, sub);
    GraftedParts(t, front, key, s, sub);
  }

  lemma {:induction false} StorableMeans(t: Tree, s: Slot, sub: Tree)
    ensures Storable(t, s, sub) ==>
        Hung(s, sub) !! Nodes(t) && (s.Nested? ==> ValidTree(sub) && sub.root == s.node && Hung(s, sub) == Nodes(sub))
  {
    hide Nodes, ValidTree;
  }

  /** A slot that can be stored in `t` can be stored in a tree with no other of its maps. */
  lemma {:induction false} StillStorable(t: Tree, g: Tree, s: Slot, sub: Tree)
    requires Storable(t, s, sub) && Nodes(g) !! Hung(s, sub)
    ensures Storable(g, s, sub)
  {
    hide Nodes, ValidTree, Hung;
  }

  lemma {:induction false} NodesAllocated(t: Tree, s: Slot, sub: Tree)
    ensures forall n :: n in Nodes(t) ==> allocated(n)
    ensures forall n :: n in Hung(s, sub) ==> allocated(n)
  {
  }

  lemma {:induction false} Snapshot(t: Tree)
    ensures EntriesOf(t).Keys == t.at.Keys && forall p :: p in t.at ==> EntriesOf(t)[p] == t.at[p].entries
    ensures ValidTree(t) <==> Shape(t, EntriesOf(t))
  {
    hide Shape;
  }

  lemma {:induction false} NodesHas(t: Tree, p: Path)
    requires p in t.at
    ensures t.at[p] in Nodes(t)
  {
  }

  lemma {:induction false} GraftedParts(t: Tree, front: Path, key: string, s: Slot, sub: Tree)
    requires front in t.at
    ensures var g := Grafted(t, front + [key], s, sub);
      g.root == t.root && g.contents == PutAt(t.contents, front + [key], ValueOf(s, sub)) && front in g.at &&
          g.at[front] == t.at[front]
  {
    GraftedAt(t, front + [key], s, sub, front);
  }

  /** The heap after storing an entry, against the entries before it. */
  lemma {:induction false} PutEntries(t: Tree, front: Path, node: MapNode, key: string, s: Slot, sub: Tree, e: Entries,
          f: Entries)
    requires Shape(t, e) && front in t.at && t.at[front] == node
    requires s.Nested? ==> Nodes(sub) !! Nodes(t) && f == EntriesOf(sub)
    requires node.entries == e[front][key := s]
    requires forall p :: p in t.at && t.at[p] != node ==> t.at[p].entries == e[p]
    ensures EntriesAfterPut(Grafted(t, front + [key], s, sub), front, key, s, e, f,
        EntriesOf(Grafted(t, front + [key], s, sub)))
  {
    var path, g := front + [key], Grafted(t, front + [key], s, sub);
    hide Grafted, EntriesMatch, AllEntries, NodesPresent;
    forall p | p in g.at ensures
      if path <= p then s.Nested? && p[|path|..] in sub.at && g.at[p] == sub.at[p[|path|..]]
          else p in t.at && g.at[p] == t.at[p] {
      NodeOrigin(t, path, s, sub, g, p);
    }
  }

  /** Drops one entry of the map at `front`. */
  method Drop(ghost t: Tree, ghost front: Path, node: MapNode, key: string) returns (ghost g: Tree)
    requires ValidTree(t) && front in t.at && t.at[front] == node
    modifies node
    ensures ValidTree(g) && g.root == t.root && g.contents == Without(t.contents, front + [key]) && Nodes(g) <= Nodes(t)
    ensures node.entries == old(node.entries) - {key}
  {
    ghost var e := EntriesOf(t);
    g := Pruned(t, front + [key]);
    hide *;
    Snapshot(t);
    node.entries := node.entries - {key};
    DropEntries(t, front, node, key, e);
    DropKeepsShape(t, e, front, key, EntriesOf(g));
    Snapshot(g);
    PrunedParts(t, front + [key]);
  }

  lemma {:induction false} PrunedParts(t: Tree, path: Path)
    ensures var g := Pruned(t, path);
      g.root == t.root && g.contents == Without(t.contents, path) && Nodes(g) <= Nodes(t)
  {
  }

  /** The heap after dropping an entry, against the entries before it. */
  lemma {:induction false} DropEntries(t: Tree, front: Path, node: MapNode, key: string, e: Entries)
    requires Shape(t, e) && front in t.at && t.at[front] == node
    requires node.entries == e[front] - {key}
    requires forall p :: p in t.at && t.at[p] != node ==> t.at[p].entries == e[p]
    ensures EntriesAfterDrop(Pruned(t, front + [key]), front, key, e, EntriesOf(Pruned(t, front + [key])))
  {
    hide EntriesMatch, AllEntries, NodesPresent;
  }

  // --- the map itself -------------------------------------------------------------------------------------

  /** What the cursor finds under one key of the map at `front`. */
  lemma {:induction false} Lookup(t: Tree, front: Path, key: string)
    requires ValidTree(t) && front in t.at
    ensures key in t.at[front].entries <==> front + [key] in t.contents
    ensures key in t.at[front].entries ==> Matches(t.at[front].entries[key], front + [key], t)
  {
    var e, p := EntriesOf(t), front + [key];
    hide EntriesMatch, AllEntries, Unshared, NodesPresent, Matches;
    if key in e[front] {
      ShapeMatches(t, e, front, key);
      MatchesPresent(e[front][key], p, t);
    }
    if p in t.contents {
      EntryIfPresent(t, e, p);
      assert Parent(p) == front && Last(p) == key;
    }
  }

  lemma {:induction false} MatchesPresent(s: Slot, p: Path, t: Tree)
    requires Matches(s, p, t)
    ensures p in t.contents
  {
  }

  ghost function EmptyTree(node: MapNode): Tree {
    Tree(node, map[[] := node], map[])
  }

  lemma {:induction false} EmptyTreeValid(node: MapNode)
    requires node.entries == map[]
    ensures ValidTree(EmptyTree(node)) && Nodes(EmptyTree(node)) == {node}
  {
    var t := EmptyTree(node);
    assert t.at[[]] == node;
  }

  lemma {:induction false} EmptyTreeStorable(node: MapNode, t: Tree)
    requires node.entries == map[] && node !in Nodes(t)
    ensures Storable(t, Nested(node), EmptyTree(node)) && Hung(Nested(node), EmptyTree(node)) == {node}
    ensures ValueOf(Nested(node), EmptyTree(node)) == Value(Dict, map[])
  {
    EmptyTreeValid(node);
    hide ValidTree;
  }

  /** Makes an empty map under a key of the map at `front`; what could be stored before still can. */
  method PutMap(ghost t: Tree, ghost front: Path, node: MapNode, key: string, ghost s: Slot, ghost sub: Tree)
          returns (ghost g: Tree)
    requires ValidTree(t) && front in t.at && t.at[front] == node && Storable(t, s, sub)
    modifies node
    ensures ValidTree(g) && g.root == t.root && g.contents == PutAt(t.contents, front + [key], Value(Dict, map[]))
    ensures Storable(g, s, sub) && forall n :: n in Nodes(g) ==> n in Nodes(t) || fresh(n)
    ensures front in g.at && g.at[front] == node && key in node.entries && node.entries[key].Nested?
  {
    hide *;
    NodesAllocated(t, s, sub);
    NodesHas(t, front);
    StorableMeans(t, s, sub);
    var made := new MapNode();
    EmptyTreeStorable(made, t);
    g := Put(t, front, node, key, Nested(made), EmptyTree(made));
    assert Storable(t, s, sub);
    StillStorable(t, g, s, sub);
  }

  /** `standardBrickMap`: the root map, with the tree it heads as a ghost. */
  class Brick {
    var m: MapNode
    ghost var tree: Tree

    ghost predicate Valid()
      reads this, Nodes(tree)
    {
      tree.root == m && ValidTree(tree)
    }

    constructor ()
      ensures Valid() && tree.contents == map[] && fresh(Nodes(tree))
    {
      var root := new MapNode();
      EmptyTreeValid(root);
      m := root;
      tree := EmptyTree(root);
    }

    /** Stores `value`, a nested map only together with a tree of its own maps. */
    method Set(path: Path, value: Slot, ghost sub: Tree) returns (err: Option<SetError>)
      requires Valid() && Storable(tree, value, sub)
      modifies this, Nodes(tree)
      ensures Valid() && m == old(m)
      ensures (tree.contents, err) == BrickSpec.Set(old(tree.contents), path, ValueOf(value, sub))
      ensures forall n :: n in Nodes(tree) ==> n in old(Nodes(tree)) || n in Hung(value, sub) || fresh(n)
    {
      hide ValidTree, PutAt, Nodes, Storable, Hung;
      StorableMeans(tree, value, sub);
      ghost var v := ValueOf(value, sub);
      RootAt(tree);
      if |path| == 0 {
        return Some(EmptyPath);
      }
      if |path| == 1 {
        NodesHas(tree, []);
        tree := Put(tree, [], m, path[0], value, sub);
        assert [] + [path[0]] == path;
        return None;
      }
      var node, i := m, 0;
      while true
        invariant 0 <= i < |path| && Valid() && m == old(m)
        invariant path[..i] in tree.at && tree.at[path[..i]] == node
        invariant Walk(tree.contents, path, v, i) == BrickSpec.Set(old(tree.contents), path, v)
        invariant Storable(tree, value, sub)
        invariant forall n :: n in Nodes(tree) ==> n in old(Nodes(tree)) || fresh(n)
        decreases |path| - i
      {
        var key := path[i];
        assert path[..i] + [key] == path[..i + 1];
        NodesHas(tree, path[..i]);
        if key == "" {
          return Some(EmptyKey(i));
        }
        if i == |path| - 1 {
          tree := Put(tree, path[..i], node, key, value, sub);
          assert path[..i + 1] == path;
          return None;
        }
        Lookup(tree, path[..i], key);
        if key !in node.entries {
          tree := PutMap(tree, path[..i], node, key, value, sub);
          assert Walk(tree.contents, path, v, i + 1) == BrickSpec.Set(old(tree.contents), path, v);
        }
        Lookup(tree, path[..i], key);
        match node.entries[key]
        case Plain(_) =>
          return Some(NotAMap(i));
        case Nested(next) =>
          node := next;
        i := i + 1;
      }
    }

    /** The value found at a path. */
    method Get(path: Path) returns (r: Option<Slot>)
      requires Valid()
      ensures r.Some? <==> BrickSpec.Get(tree.contents, path).Some?
      ensures r.Some? ==> Matches(r.value, path, tree)
    {
      hide ValidTree, Matches;
      RootAt(tree);
      if |path| == 0 {
        return None;
      }
      var node, i := m, 0;
      while true
        invariant 0 <= i < |path| && "" !in path[..i] && Valid()
        invariant path[..i] in tree.at && tree.at[path[..i]] == node
        decreases |path| - i
      {
        var key := path[i];
        if key == "" {
          return None;
        }
        assert path[..i] + [key] == path[..i + 1];
        Lookup(tree, path[..i], key);
        if i == |path| - 1 {
          assert path[..i + 1] == path;
          return if key in node.entries then Some(node.entries[key]) else None;
        }
        if key !in node.entries {
          MissingBelow(tree, path, i + 1);
          return None;
        }
        SlotBelow(tree, path, i + 1, node.entries[key]);
        match node.entries[key]
        case Plain(_) =>
          return None;
        case Nested(next) =>
          node := next;
        i := i + 1;
      }
    }

    /** Removes what stands at a path, and says whether anything did. */
    method Delete(path: Path) returns (found: bool)
      requires Valid()
      modifies this, Nodes(tree)
      ensures Valid() && m == old(m) && Nodes(tree) <= old(Nodes(tree))
      ensures (tree.contents, found) == BrickSpec.Delete(old(tree.contents), path)
    {
      hide ValidTree, Matches, Without, Nodes;
      RootAt(tree);
      if |path| == 0 {
        return false;
      }
      var node, i := m, 0;
      while true
        invariant 0 <= i < |path| && "" !in path[..i] && unchanged(this) && Valid() && Nodes(tree) == old(Nodes(tree))
        invariant path[..i] in tree.at && tree.at[path[..i]] == node
        decreases |path| - i
      {
        var key := path[i];
        if key == "" {
          return false;
        }
        assert path[..i] + [key] == path[..i + 1];
        Lookup(tree, path[..i], key);
        if i == |path| - 1 {
          assert path[..i + 1] == path;
          if key in node.entries {
            NodesHas(tree, path[..i]);
            tree := Drop(tree, path[..i], node, key);
            return true;
          }
          return false;
        }
        if key !in node.entries {
          MissingBelow(tree, path, i + 1);
          return false;
        }
        SlotBelow(tree, path, i + 1, node.entries[key]);
        match node.entries[key]
        case Plain(_) =>
          return false;
        case Nested(next) =>
          node := next;
        i := i + 1;
      }
    }
  }

  /** Nothing stands below a path that is missing. */
  lemma {:induction false} MissingBelow(t: Tree, path: Path, n: nat)
    requires ValidTree(t) && 0 < n <= |path| && path[..n] !in t.contents
    ensures path !in t.contents
  {
    hide Shape;
    Snapshot(t);
    ShapeWellFormed(t, EntriesOf(t));
    if path in t.contents {
      PrefixPresent(t.contents, path, n);
    }
  }

  /** A nested map is the node at its path; below anything else nothing stands. */
  lemma {:induction false} SlotBelow(t: Tree, path: Path, n: nat, s: Slot)
    requires ValidTree(t) && 0 < n < |path| && Matches(s, path[..n], t)
    ensures match s case Plain(_) => path !in t.contents
        case Nested(node) => path[..n] in t.at && t.at[path[..n]] == node
  {
    hide Shape;
    Snapshot(t);
    ShapeWellFormed(t, EntriesOf(t));
    if path in t.contents {
      PrefixPresent(t.contents, path, n);
    }
  }

  lemma {:induction false} RootAt(t: Tree)
    requires ValidTree(t)
    ensures [] in t.at && t.at[[]] == t.root
  {
  }
}
