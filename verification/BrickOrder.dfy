/** Exactly when the order of setting many paths does not matter. */
module BrickOrder {
  import opened Wrappers
  import opened BrickSpec
  import opened BrickMerge
  import opened StableSort

  /** What setting the items in this order comes to: a tree, or a refusal. */
  function Outcome(items: seq<Item>): Option<Contents> {
    var (c, err) := SetAll(map[], items);
    if err.Some? then None else Some(c)
  }

  ghost predicate OrdersAgree(items: seq<Item>) {
    forall other :: multiset(other) == multiset(items) ==> Outcome(other) == Outcome(items)
  }

  /** A path that cannot be set makes every order fail. */
  lemma {:induction false} UnsettableFails(items: seq<Item>, it: Item)
    requires AllValid(items) && it in items && !Settable(it.path)
    ensures Outcome(items) == None
  {
    hide Set, ValidValue;
    var front, last := items[..|items| - 1], items[|items| - 1];
    assert items == front + [last];
    SetAllWellFormed(front);
    SetAllSnoc(map[], front, last);
    if it in front {
      UnsettableFails(front, it);
    } else {
      SetSucceedsExactly(SetAll(map[], front).0, last.path, last.value);
    }
  }

  lemma {:induction false} SetAllWellFormed(items: seq<Item>)
    requires AllValid(items)
    ensures WellFormed(SetAll(map[], items).0)
  {
    hide Set, ValidValue, WellFormed;
    if items == [] {
      EmptyWellFormed();
    } else {
      var front, last := items[..|items| - 1], items[|items| - 1];
      assert items == front + [last];
      SetAllWellFormed(front);
      var c := SetAll(map[], front).0;
      if Set(c, last.path, last.value).1.Some? {
        RejectedSet(c, last.path, last.value);
      } else {
        GetAfterSet(c, last.path, last.value);
      }
    }
  }

  lemma {:induction false} EmptyWellFormed()
    ensures WellFormed(map[])
  {
  }

  // --- one order that succeeds -----------------------------------------------------------------------

  /** Longer paths come first. */
  function LongerFirst(): (Item, Item) -> bool {
    (x: Item, y: Item) => |x.path| >= |y.path|
  }

  /** Nothing but maps stands above the shortest path so far. */
  ghost predicate MapsAbove(c: Contents, n: nat) {
    forall q :: q in c && |q| < n ==> c[q] == Dict
  }

  /** Set from the longest path to the shortest, every item finds only maps on its way. */
  lemma {:induction false} LongestFirstSucceeds(items: seq<Item>)
    requires Sorted(LongerFirst(), items) && AllValid(items) && forall it :: it in items ==> Settable(it.path)
    ensures SetAll(map[], items).1.None?
    ensures MapsAbove(SetAll(map[], items).0, if items == [] then 0 else |items[|items| - 1].path|)
  {
    hide Set, ValidValue, Settable, Puts;
    if items != [] {
      var front, last := items[..|items| - 1], items[|items| - 1];
      assert items == front + [last];
      LongestFirstSucceeds(front);
      SetAllWellFormed(front);
      SetAllSnoc(map[], front, last);
      var c, n := SetAll(map[], front).0, |last.path|;
      assert MapsAbove(c, n) by {
        if front == [] {
          SetAllNothing(map[]);
        } else {
          assert LongerFirst()(items[|items| - 2], items[|items| - 1]);
        }
      }
      SetSucceedsExactly(c, last.path, last.value);
      assert Settable(last.path);
      SettableMeans(last.path);
      forall q | q in Set(c, last.path, last.value).0 && |q| < n ensures Set(c, last.path, last.value).0[q] == Dict {
        SetPoint(c, last, q);
        PutsAbove(last, q);
      }
    }
  }

  lemma {:induction false} SettableMeans(path: Path)
    ensures Settable(path) <==> path != [] && (|path| > 1 ==> "" !in path)
  {
  }

  lemma {:induction false} PutsAbove(it: Item, q: Path)
    requires |q| < |it.path|
    ensures Puts(it, q).Some? ==> Puts(it, q).value == Dict
  {
  }

  // --- what the last item leaves ---------------------------------------------------------------------------

  /** The contents at and below a path are those of the value. */
  ghost predicate Leaves(c: Contents, it: Item) {
    forall q :: it.path <= q ==> (q in c <==> Puts(it, q).Some?) && (q in c ==> c[q] == Puts(it, q).value)
  }

  lemma {:induction false} LastLeaves(front: seq<Item>, last: Item)
    requires AllValid(front + [last]) && SetAll(map[], front + [last]).1.None?
    ensures Leaves(SetAll(map[], front + [last]).0, last)
  {
    hide Set, ValidValue, Puts;
    assert last in front + [last];
    SetAllSnoc(map[], front, last);
    SetAllWellFormed(front);
    var c := SetAll(map[], front + [last]).0;
    forall q | last.path <= q ensures (q in c <==> Puts(last, q).Some?) && (q in c ==> c[q] == Puts(last, q).value) {
      SetPoint(SetAll(map[], front).0, last, q);
    }
  }

  /** Some order of the items ends with this one. */
  lemma {:induction false} MovedLast(items: seq<Item>, it: Item) returns (front: seq<Item>)
    requires it in items
    ensures multiset(front + [it]) == multiset(items)
  {
    var i :| 0 <= i < |items| && items[i] == it;
    front := items[..i] + items[i + 1..];
    assert items == items[..i] + [it] + items[i + 1..];
  }

  lemma {:induction false} LeavesAt(c: Contents, it: Item, s: Path)
    requires Leaves(c, it) && it.path != [] && ValidValue(it.value)
    ensures it.path + s in c <==> s == [] || s in it.value.below
    ensures it.path + s in c ==> c[it.path + s] == if s == [] then it.value.kind else it.value.below[s]
    ensures [] !in it.value.below
  {
    assert it.path <= it.path + s && (it.path + s)[|it.path|..] == s;
    assert it.path + s == it.path <==> s == [];
  }

  /** A tree that holds both values has the inner one inside the outer one. */
  lemma {:induction false} BothLeaveIsCompatible(c: Contents, x: Item, y: Item)
    requires Leaves(c, x) && Leaves(c, y) && x.path != [] && y.path != []
    requires ValidValue(x.value) && ValidValue(y.value)
    ensures Compatible(x, y)
  {
    hide Leaves, ValidValue, BelowAt;
    if x.path <= y.path {
      var r := y.path[|x.path|..];
      assert y.path == x.path + r && y.path + [] == y.path;
      LeavesAt(c, x, r);
      LeavesAt(c, y, []);
      var inner := if r == [] then x.value.below else BelowAt(x.value.below, r);
      forall s ensures (s in inner <==> s in y.value.below) && (s in inner ==> inner[s] == y.value.below[s]) {
        SameInside(c, x, y, r, s);
      }
      assert inner == y.value.below;
      PartIs(x.value, r, y.value);
    }
  }

  lemma {:induction false} SameInside(c: Contents, x: Item, y: Item, r: Path, s: Path)
    requires Leaves(c, x) && Leaves(c, y) && x.path != [] && y.path == x.path + r
    requires ValidValue(x.value) && ValidValue(y.value)
    ensures var inner := if r == [] then x.value.below else BelowAt(x.value.below, r);
      (s in inner <==> s in y.value.below) && (s in inner ==> inner[s] == y.value.below[s])
  {
    hide Leaves, ValidValue, BelowAt;
    LeavesAt(c, y, s);
    LeavesAt(c, x, r + s);
    assert y.path + s == x.path + (r + s);
    BelowAtPoint(x.value.below, r, s);
    assert r == [] ==> r + s == s;
  }

  lemma {:induction false} PartIs(v: Value, r: Path, w: Value)
    requires if r == [] then v == w else r in v.below && v.below[r] == w.kind && BelowAt(v.below, r) == w.below
    ensures Part(v, r) == Some(w)
  {
    hide BelowAt;
  }

  // --- exactly ------------------------------------------------------------------------------------------------

  lemma {:induction false} AgreeingIsConsistent(items: seq<Item>)
    requires AllValid(items) && OrdersAgree(items) && forall it :: it in items ==> Settable(it.path)
    ensures Consistent(items)
  {
    hide Set, ValidValue, Puts, SetAll, Compatible, TotalPreorder, Leaves;
    var sorted := Sort(LongerFirst(), items);
    LongerFirstIsPreorder();
    SortSorts(LongerFirst(), items);
    SameMembers(items, sorted);
    LongestFirstSucceeds(sorted);
    var c := Outcome(sorted).value;
    forall it | it in items ensures Leaves(c, it) && it.path != [] {
      var front := MovedLast(items, it);
      SameMembers(items, front + [it]);
      assert Outcome(front + [it]) == Some(c);
      LastLeaves(front, it);
      SettableMeans(it.path);
    }
    forall x, y | x in items && y in items ensures Compatible(x, y) {
      BothLeaveIsCompatible(c, x, y);
    }
  }

  lemma {:induction false} LongerFirstIsPreorder()
    ensures TotalPreorder(LongerFirst())
  {
  }

  /**
   All orders come to the same exactly when some path cannot be set, or every item that goes inside
   another finds its own value there.
   */
  lemma {:induction false} OrdersAgreeExactly(items: seq<Item>)
    requires AllValid(items)
    ensures OrdersAgree(items) <==> (exists it :: it in items && !Settable(it.path)) || Consistent(items)
  {
    hide Set, ValidValue, SetAll, Compatible, Settable;
    if it :| it in items && !Settable(it.path) {
      forall other | multiset(other) == multiset(items) ensures Outcome(other) == Outcome(items) {
        SameMembers(items, other);
        UnsettableFails(items, it);
        UnsettableFails(other, it);
      }
    } else if Consistent(items) {
      forall other | multiset(other) == multiset(items) ensures Outcome(other) == Outcome(items) {
        OrderDoesNotMatter(items, other);
      }
    } else if OrdersAgree(items) {
      AgreeingIsConsistent(items);
    }
  }
}
