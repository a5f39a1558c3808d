/** Setting many paths one after another, and what the order of doing so matters. */
module BrickMerge {
  import opened Wrappers
  import opened BrickSpec

  datatype Item = Item(path: Path, value: Value)

  /** Sets every item in turn and stops at the first error. */
  function SetAll(c: Contents, items: seq<Item>): (Contents, Option<SetError>)
    decreases |items|
  {
    if items == [] then (c, None)
    else SetNext(SetAll(c, items[..|items| - 1]), items[|items| - 1])
  }

  function SetNext(before: (Contents, Option<SetError>), it: Item): (Contents, Option<SetError>) {
    if before.1.Some? then before else Set(before.0, it.path, it.value)
  }

  lemma {:induction false} SetAllSnoc(c: Contents, items: seq<Item>, last: Item)
    ensures SetAll(c, items + [last]) == SetNext(SetAll(c, items), last)
  {
    hide SetNext;
    assert (items + [last])[..|items|] == items;
  }

  lemma {:induction false} SetAllNothing(c: Contents)
    ensures SetAll(c, []) == (c, None)
  {
  }

  /** After an error nothing more is set. */
  lemma {:induction false} SetAllStops(c: Contents, items: seq<Item>, k: nat)
    requires k <= |items| && SetAll(c, items[..k]).1.Some?
    ensures SetAll(c, items) == SetAll(c, items[..k])
    decreases |items|
  {
    hide Set;
    if k < |items| {
      assert items[..|items| - 1][..k] == items[..k];
      SetAllStops(c, items[..|items| - 1], k);
    } else {
      assert items[..k] == items;
    }
  }

  /** A path of several keys must have no empty key. */
  predicate Settable(path: Path) {
    path != [] && (|path| > 1 ==> "" !in path)
  }

  ghost predicate Apart(items: seq<Item>) {
    forall i, j :: 0 <= i < j < |items| ==> Incomparable(items[i].path, items[j].path)
  }

  /** What one item puts at a path: its value, something inside its value, or a map above it. */
  function Puts(it: Item, q: Path): Option<Kind> {
    if q == [] then None
    else if it.path <= q then
      if q == it.path then Some(it.value.kind)
      else if q[|it.path|..] in it.value.below then Some(it.value.below[q[|it.path|..]])
      else None
    else if q <= it.path then Some(Dict)
    else None
  }

  /** The tree holds exactly what the items put. */
  ghost predicate HoldsExactly(c: Contents, items: seq<Item>) {
    && (forall q :: q in c ==> PutBySome(items, q))
    && (forall it, q :: it in items && Puts(it, q).Some? ==> q in c && c[q] == Puts(it, q).value)
  }

  ghost predicate PutBySome(items: seq<Item>, q: Path) {
    exists it :: it in items && Puts(it, q).Some?
  }

  /** What a contents holds below a path of its own. */
  function BelowAt(c: Contents, r: Path): Contents {
    map s | s in (set q | q in c && r <= q && q != r :: q[|r|..]) && r + s in c :: c[r + s]
  }

  /** The part of a value at a path inside it. */
  function Part(v: Value, r: Path): Option<Value> {
    if r == [] then Some(v) else if r in v.below then Some(Value(v.below[r], BelowAt(v.below, r))) else None
  }

  /** If `y` goes inside `x`, then the value of `x` has the value of `y` there already. */
  ghost predicate Compatible(x: Item, y: Item) {
    x.path <= y.path ==> Part(x.value, y.path[|x.path|..]) == Some(y.value)
  }

  ghost predicate Consistent(items: seq<Item>) {
    forall x, y :: x in items && y in items ==> Compatible(x, y)
  }

  ghost predicate AllValid(items: seq<Item>) {
    forall it :: it in items ==> ValidValue(it.value)
  }

  lemma {:induction false} BelowAtPoint(c: Contents, r: Path, s: Path)
    ensures s in BelowAt(c, r) <==> s != [] && r + s in c
    ensures s in BelowAt(c, r) ==> BelowAt(c, r)[s] == c[r + s]
  {
    if s != [] && r + s in c {
      assert r <= r + s && (r + s)[|r|..] == s;
    }
    assert r + [] == r;
  }

  lemma {:induction false} PutsInside(it: Item, s: Path)
    requires s != []
    ensures Puts(it, it.path + s) == if s in it.value.below then Some(it.value.below[s]) else None
    ensures it.path != [] ==> Puts(it, it.path) == Some(it.value.kind)
  {
    assert (it.path + s)[|it.path|..] == s;
  }

  /** Inside the inner item, both put the same. */
  lemma {:induction false} InnerInside(x: Item, y: Item, r: Path, s: Path)
    requires y.path == x.path + r && r != [] && Part(x.value, r) == Some(y.value)
    ensures Puts(x, y.path + s) == Puts(y, y.path + s)
  {
    BelowAtPoint(x.value.below, r, s);
    PutsInside(x, r + s);
    assert x.path + (r + s) == y.path + s;
    if s == [] {
      assert r + s == r && y.path + s == y.path;
    } else {
      PutsInside(y, s);
    }
  }

  /** On the way from the outer item to the inner one, both put maps. */
  lemma {:induction false} InnerAbove(x: Item, y: Item, r: Path, n: nat)
    requires y.path == x.path + r && r != [] && n < |r| && Part(x.value, r) == Some(y.value) && ValidValue(x.value)
    ensures Puts(x, x.path + r[..n]) == Puts(y, x.path + r[..n])
    ensures Puts(y, x.path + r[..n]).Some? ==> Puts(x, x.path + r[..n]).Some?
  {
    var q := x.path + r[..n];
    assert q <= y.path && q != y.path;
    PrefixPresent(x.value.below, r, |r|);
    if n == 0 {
      assert q == x.path;
    } else {
      PrefixPresent(x.value.below, r, n);
      PutsInside(x, r[..n]);
    }
  }

  /**
   Where two compatible items both put something, they put the same; and the outer one puts all
   that the inner one does.
   */
  lemma {:induction false} InnerAgrees(x: Item, y: Item, q: Path)
    requires Compatible(x, y) && x.path <= y.path && ValidValue(x.value) && ValidValue(y.value)
    ensures Puts(x, q).Some? && Puts(y, q).Some? ==> Puts(x, q) == Puts(y, q)
    ensures x.path <= q && Puts(y, q).Some? ==> Puts(x, q).Some?
    ensures y.path <= q ==> Puts(x, q) == Puts(y, q)
  {
    var r := y.path[|x.path|..];
    assert y.path == x.path + r;
    if r == [] {
      assert x == y;
    } else if y.path <= q {
      assert q == y.path + q[|y.path|..];
      InnerInside(x, y, r, q[|y.path|..]);
    } else if x.path <= q && q <= y.path {
      var n := |q| - |x.path|;
      assert q == x.path + r[..n];
      InnerAbove(x, y, r, n);
    } else {
      hide Compatible, ValidValue;
      PutsElsewhere(x, y, q);
    }
  }

  lemma {:induction false} PutsElsewhere(x: Item, y: Item, q: Path)
    requires x.path <= y.path && !(y.path <= q) && !(x.path <= q && q <= y.path)
    ensures Puts(x, q).Some? && Puts(y, q).Some? ==> Puts(x, q) == Puts(y, q)
    ensures x.path <= q ==> Puts(y, q) == None
  {
  }

  lemma {:induction false} ItemsAgree(x: Item, y: Item, q: Path)
    requires Compatible(x, y) && Compatible(y, x) && ValidValue(x.value) && ValidValue(y.value)
    ensures Puts(x, q).Some? && Puts(y, q).Some? ==> Puts(x, q) == Puts(y, q)
    ensures x.path <= q && Puts(y, q).Some? ==> Puts(x, q).Some?
  {
    hide Compatible, ValidValue;
    if x.path <= y.path {
      InnerAgrees(x, y, q);
    } else if y.path <= x.path {
      InnerAgrees(y, x, q);
    } else {
      hide *;
      ApartPuts(x, y, q);
      ApartPuts(y, x, q);
    }
  }

  lemma {:induction false} ApartPuts(x: Item, y: Item, q: Path)
    requires Incomparable(x.path, y.path)
    ensures x.path <= q ==> Puts(y, q).None?
    ensures !(x.path <= q) && Puts(x, q).Some? ==> Puts(x, q).value == Dict
  {
  }

  /** The next item finds only maps on its way. */
  lemma {:induction false} NextSucceeds(c: Contents, items: seq<Item>, it: Item)
    requires WellFormed(c) && HoldsExactly(c, items) && Consistent(items + [it]) && AllValid(items + [it])
    ensures Set(c, it.path, it.value).1.None? <==> Settable(it.path)
  {
    hide Set, Puts, Compatible, ValidValue;
    SetSucceedsExactly(c, it.path, it.value);
    assert it in items + [it];
    forall j | 0 < j < |it.path| && it.path[..j] in c ensures c[it.path[..j]] == Dict {
      var q := it.path[..j];
      assert PutBySome(items, q);
      var other :| other in items && Puts(other, q).Some?;
      assert other in items + [it];
      PutsMapAbove(it, j);
      ItemsAgree(other, it, q);
    }
  }

  lemma {:induction false} PutsMapAbove(it: Item, j: nat)
    requires 0 < j < |it.path|
    ensures Puts(it, it.path[..j]) == Some(Dict)
  {
  }

  /** A path of the tree after a successful Set. */
  lemma {:induction false} SetPoint(c: Contents, it: Item, q: Path)
    requires WellFormed(c) && ValidValue(it.value) && Set(c, it.path, it.value).1.None?
    ensures var c2 := Set(c, it.path, it.value).0;
      && (it.path <= q ==> (q in c2 <==> Puts(it, q).Some?))
      && (!(it.path <= q) ==> (q in c2 <==> q in c || Puts(it, q).Some?) && (q in c ==> c2[q] == c[q]))
      && (q in c2 && (it.path <= q || q !in c) ==> c2[q] == Puts(it, q).value)
  {
    hide PutAt, MakeSpine;
    SuccessfulSet(c, it.path, it.value);
    PutAtPoint(Base(c, it.path), it.path, it.value, q);
    if !(it.path <= q) {
      SpinePoint(c, it.path, q);
    }
  }

  lemma {:induction false} SpinePoint(c: Contents, path: Path, q: Path)
    requires path != [] && !(path <= q)
    ensures q in Base(c, path) <==> q in c || (q != [] && q <= path)
    ensures q in Base(c, path) ==> Base(c, path)[q] == if q in c then c[q] else Dict
  {
    if q != [] && q <= path {
      assert q == path[..|q|] && |q| < |path|;
    }
  }

  lemma {:induction false} NextHolds(c: Contents, items: seq<Item>, it: Item)
    requires WellFormed(c) && HoldsExactly(c, items) && Consistent(items + [it]) && AllValid(items + [it])
    requires Set(c, it.path, it.value).1.None?
    ensures HoldsExactly(Set(c, it.path, it.value).0, items + [it])
  {
    hide Set, Puts, Compatible, ValidValue;
    var c2, all := Set(c, it.path, it.value).0, items + [it];
    assert it in all;
    forall q | q in c2 ensures PutBySome(all, q) {
      SetPoint(c, it, q);
      if Puts(it, q).None? {
        assert PutBySome(items, q);
      }
    }
    forall x, q | x in all && Puts(x, q).Some? ensures q in c2 && c2[q] == Puts(x, q).value {
      SetPoint(c, it, q);
      ItemsAgree(it, x, q);
      if q in c && !(it.path <= q) && x !in items {
        assert PutBySome(items, q);
        var other :| other in items && Puts(other, q).Some?;
        assert other in all;
        ItemsAgree(other, it, q);
      }
    }
  }

  /** Consistent items all succeed exactly when every path is settable, and the tree is what they put. */
  lemma {:induction false} ConsistentItemsMerge(items: seq<Item>)
    requires Consistent(items) && AllValid(items)
    ensures SetAll(map[], items).1.None? <==> forall it :: it in items ==> Settable(it.path)
    ensures SetAll(map[], items).1.None? ==>
        WellFormed(SetAll(map[], items).0) && HoldsExactly(SetAll(map[], items).0, items)
  {
    hide Set, Puts, ValidValue, Settable, Compatible;
    if items != [] {
      var front, last := items[..|items| - 1], items[|items| - 1];
      assert items == front + [last];
      ConsistentItemsMerge(front);
      SetAllSnoc(map[], front, last);
      var (c, err) := SetAll(map[], front);
      if err.None? {
        NextSucceeds(c, front, last);
        if Settable(last.path) {
          NextHolds(c, front, last);
          GetAfterSet(c, last.path, last.value);
        }
      }
    }
  }

  lemma {:induction false} InsideItem(c: Contents, items: seq<Item>, it: Item, s: Path)
    requires HoldsExactly(c, items) && Consistent(items) && AllValid(items) && it in items && s != []
    ensures it.path + s in c <==> s in it.value.below
    ensures s in it.value.below ==> it.path + s in c && c[it.path + s] == it.value.below[s]
  {
    hide Compatible, Puts, ValidValue;
    var q := it.path + s;
    PutsInside(it, s);
    if q in c {
      assert PutBySome(items, q);
      var x :| x in items && Puts(x, q).Some?;
      ItemsAgree(it, x, q);
    }
  }

  lemma {:induction false} BelowItem(c: Contents, items: seq<Item>, it: Item, s: Path)
    requires HoldsExactly(c, items) && Consistent(items) && AllValid(items) && it in items
    ensures s in BelowAt(c, it.path) <==> s in it.value.below
    ensures s in it.value.below ==> s in BelowAt(c, it.path) && BelowAt(c, it.path)[s] == it.value.below[s]
  {
    assert ValidValue(it.value) && [] !in it.value.below;
    hide HoldsExactly, Consistent, AllValid, BelowAt, ValidValue;
    BelowAtPoint(c, it.path, s);
    if s != [] {
      InsideItem(c, items, it, s);
    }
  }

  lemma {:induction false} SameContents(a: Contents, b: Contents)
    requires forall s :: s in a <==> s in b
    requires forall s :: s in b ==> s in a && a[s] == b[s]
    ensures a == b
  {
  }

  /** What every item put stands at its path, whole and with nothing added. */
  lemma {:induction false} ItemStands(c: Contents, items: seq<Item>, it: Item)
    requires HoldsExactly(c, items) && Consistent(items) && AllValid(items) && it in items && it.path != []
    ensures it.path in c && Value(c[it.path], BelowAt(c, it.path)) == it.value
  {
    assert it.path in c && c[it.path] == it.value.kind by {
      PutsInside(it, [""]);
    }
    hide HoldsExactly, Consistent, AllValid, BelowAt;
    forall s ensures s in BelowAt(c, it.path) <==> s in it.value.below
      ensures s in it.value.below ==> s in BelowAt(c, it.path) && BelowAt(c, it.path)[s] == it.value.below[s] {
      BelowItem(c, items, it, s);
    }
    SameContents(BelowAt(c, it.path), it.value.below);
  }

  lemma {:induction false} ApartIsConsistent(items: seq<Item>)
    requires Apart(items)
    ensures Consistent(items)
  {
    hide Part;
    forall x, y | x in items && y in items ensures Compatible(x, y) {
      var i :| 0 <= i < |items| && items[i] == x;
      var j :| 0 <= j < |items| && items[j] == y;
      if i == j {
        PartAtTop(x.value, x.path);
      } else {
        assert if i < j then Incomparable(items[i].path, items[j].path) else Incomparable(items[j].path, items[i].path);
      }
    }
  }

  lemma {:induction false} PartAtTop(v: Value, p: Path)
    ensures Part(v, p[|p|..]) == Some(v)
  {
    assert p[|p|..] == [];
  }

  /**
   Merging consistent items gives the same answer in every order; items on pairwise incomparable
   paths are consistent.
   */
  lemma {:induction false} OrderDoesNotMatter(items: seq<Item>, other: seq<Item>)
    requires (Apart(items) || Consistent(items)) && multiset(items) == multiset(other) && AllValid(items)
    ensures SetAll(map[], items).1.None? <==> SetAll(map[], other).1.None?
    ensures SetAll(map[], items).1.None? ==> SetAll(map[], items) == SetAll(map[], other)
  {
    hide Set, Puts, ValidValue, Settable, SetAll, Compatible, Apart;
    SameMembers(items, other);
    if Apart(items) {
      ApartIsConsistent(items);
    }
    ConsistentItemsMerge(items);
    ConsistentItemsMerge(other);
    if SetAll(map[], items).1.None? {
      SameHoldings(SetAll(map[], items).0, SetAll(map[], other).0, items, other);
    }
  }

  lemma {:induction false} SameMembers(items: seq<Item>, other: seq<Item>)
    requires multiset(items) == multiset(other)
    ensures forall it :: it in items <==> it in other
  {
    forall it ensures it in items <==> it in other {
      assert it in items <==> it in multiset(items);
      assert it in other <==> it in multiset(other);
    }
  }

  lemma {:induction false} SameHoldings(c: Contents, d: Contents, items: seq<Item>, other: seq<Item>)
    requires HoldsExactly(c, items) && HoldsExactly(d, other)
    requires forall it :: it in items <==> it in other
    ensures c == d
  {
    hide Puts;
    forall q ensures q in c <==> q in d {
      assert PutBySome(items, q) <==> PutBySome(other, q);
    }
    forall q | q in c ensures c[q] == d[q] {
      var it :| it in items && Puts(it, q).Some?;
    }
  }

  /** When one path runs through another, the order decides whether merging succeeds at all. */
  lemma {:induction false} OrderCanMatter(key: string, inner: string, a: string, b: string)
    requires key != "" && inner != ""
    ensures var short, long := Item([key], Value(Atom(a), map[])), Item([key, inner], Value(Atom(b), map[]));
      && SetAll(map[], [short, long]).1 == Some(NotAMap(0))
      && SetAll(map[], [long, short]).1 == None
  {
    var short, long := Item([key], Value(Atom(a), map[])), Item([key, inner], Value(Atom(b), map[]));
    hide SetAll, Set, PutAt, Walk;
    SetAllPair(map[], short, long);
    SetAllPair(map[], long, short);
    var c := Set(map[], [key], short.value).0;
    assert c == PutAt(map[], [key], short.value) by { SetOneKey(map[], key, short.value); }
    PutAtPoint(map[], [key], short.value, [key]);
    SetOneKey(map[], key, short.value);
    StoppedAtFirst(c, key, inner, long.value);
    SetSucceedsExactly(map[], [key, inner], long.value);
    SetOneKey(Set(map[], long.path, long.value).0, key, short.value);
  }

  lemma {:induction false} SetOneKey(c: Contents, key: string, v: Value)
    ensures Set(c, [key], v) == (PutAt(c, [key], v), None)
  {
  }

  lemma {:induction false} StoppedAtFirst(c: Contents, key: string, inner: string, v: Value)
    requires key != "" && [key] in c && c[[key]] != Dict
    ensures Set(c, [key, inner], v) == (c, Some(NotAMap(0)))
  {
    assert [key, inner][..1] == [key];
  }

  lemma {:induction false} SetAllPair(c: Contents, x: Item, y: Item)
    ensures SetAll(c, [x, y]) == var (c2, err) := Set(c, x.path, x.value); if err.Some? then (c2, err)
        else Set(c2, y.path, y.value)
  {
    hide Set;
    assert [x, y] == [x] + [y] && [x] == [] + [x];
    SetAllSnoc(c, [x], y);
    SetAllSnoc(c, [], x);
  }
}
