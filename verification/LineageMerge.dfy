/** Merging the request-body fields of one SQL row into a nested map (`standardObjectWithLineageCollection`). */
module LineageMerge {
  import opened Wrappers
  import opened GoStrings
  import opened BrickSpec
  import opened BrickMap
  import opened BrickMerge
  import opened BrickOrder

  /** A request-body field: where it goes, and its value. */
  datatype Field = Field(parentKey: string, key: string, value: Slot)

  function SplitPath(prefixPath: string, path: string): Path {
    if prefixPath == "" then Split(path, '.') else Split(prefixPath, '.') + Split(path, '.')
  }

  /** The dotted name of a field: its parent's, if any, and its own. */
  function DottedName(f: Field): string {
    if f.parentKey == "" then f.key else f.parentKey + "." + f.key
  }

  /** `path` is what the dots of a name part it into. */
  predicate Parts(name: string, path: Path) {
    path != [] && (forall i :: 0 <= i < |path| ==> '.' !in path[i]) && Join(path, ".") == name
  }

  /** A field goes to the segments of its dotted name, the parent's before its own. */
  lemma {:induction false} SplitPathExactly(f: Field, path: Path)
    ensures SplitPath(f.parentKey, f.key) == path <==> Parts(DottedName(f), path)
  {
    hide Split, Join;
    var p, k := f.parentKey, f.key;
    SplitJoin(p, '.');
    SplitJoin(k, '.');
    JoinAppend(Split(p, '.'), Split(k, '.'), ".");
    assert Parts(DottedName(f), SplitPath(p, k));
    JoinSplit(SplitPath(p, k), '.');
    if Parts(DottedName(f), path) {
      JoinSplit(path, '.');
    }
  }

  ghost function ItemOf(f: Field, sub: Tree): Item {
    Item(SplitPath(f.parentKey, f.key), ValueOf(f.value, sub))
  }

  /** The items to set: `subs` holds the trees of the values that are maps. */
  ghost function ItemsOf(fields: seq<Field>, subs: seq<Tree>): seq<Item>
    requires |fields| == |subs|
  {
    seq(|fields|, i requires 0 <= i < |fields| => ItemOf(fields[i], subs[i]))
  }

  ghost function AllHung(fields: seq<Field>, subs: seq<Tree>): (all: set<MapNode>)
    requires |fields| == |subs|
    ensures forall i :: 0 <= i < |fields| ==> Hung(fields[i].value, subs[i]) <= all
  {
    set i, n | 0 <= i < |fields| && n in Hung(fields[i].value, subs[i]) :: n
  }

  /** The values that are maps own all their maps, and share none. */
  ghost predicate Unaliased(fields: seq<Field>, subs: seq<Tree>)
    requires |fields| == |subs|
    reads AllHung(fields, subs)
  {
    && (forall i :: 0 <= i < |fields| ==> Owned(fields[i].value, subs[i]))
    && (forall i, j :: 0 <= i < j < |fields| ==> Hung(fields[i].value, subs[i]) !! Hung(fields[j].value, subs[j]))
  }

  ghost predicate Owned(s: Slot, sub: Tree)
    reads Hung(s, sub)
  {
    s.Nested? ==> ValidTree(sub) && sub.root == s.node
  }

  class Collection {
    var inputs: seq<Field>

    constructor ()
      ensures inputs == []
    {
      inputs := [];
    }

    method PushBack(f: Field)
      modifies this
      ensures inputs == old(inputs) + [f]
    {
      inputs := inputs + [f];
    }

    /** Sets every field in a fresh brick map, and stops at the first error. */
    method Merge(ghost subs: seq<Tree>) returns (bm: Brick, err: Option<SetError>)
      requires |subs| == |inputs| && Unaliased(inputs, subs)
      modifies AllHung(inputs, subs)
      ensures fresh(bm) && bm.Valid()
      ensures (bm.tree.contents, err) == SetAll(map[], ItemsOf(inputs, subs))
    {
      hide ValidTree, Nodes, Hung, BrickSpec.Set, SetAll, SplitPath, ValueOf;
      ghost var items := ItemsOf(inputs, subs);
      ghost var hung := AllHung(inputs, subs);
      AllAllocated(inputs, subs);
      bm := new Brick();
      err := None;
      SetAllNothing(map[]);
      var i := 0;
      while i < |inputs|
        invariant 0 <= i <= |inputs| && fresh(bm) && bm.Valid() && err == None
        invariant (bm.tree.contents, None) == SetAll(map[], items[..i])
        invariant forall n :: n in Nodes(bm.tree) ==> fresh(n) || n in hung
        invariant forall j :: i <= j < |inputs| ==>
            Owned(inputs[j].value, subs[j]) && Hung(inputs[j].value, subs[j]) !! Nodes(bm.tree)
      {
        assert items[..i + 1] == items[..i] + [items[i]];
        SetAllSnoc(map[], items[..i], items[i]);
        err := bm.Set(SplitPath(inputs[i].parentKey, inputs[i].key), inputs[i].value, subs[i]);
        if err.Some? {
          SetAllStops(map[], items, i + 1);
          return;
        }
        i := i + 1;
      }
      assert items[..i] == items;
    }
  }

  lemma {:induction false} AllAllocated(fields: seq<Field>, subs: seq<Tree>)
    requires |fields| == |subs|
    ensures forall n :: n in AllHung(fields, subs) ==> allocated(n)
  {
  }

  lemma {:induction false} ItemsAreValid(fields: seq<Field>, subs: seq<Tree>)
    requires |fields| == |subs| && Unaliased(fields, subs)
    ensures AllValid(ItemsOf(fields, subs))
  {
    hide ValidTree, ValidValue, ValueOf, Hung, SplitPath;
    forall i | 0 <= i < |fields| ensures ValidValue(ItemsOf(fields, subs)[i].value) {
      OwnedIsValid(fields[i].value, subs[i]);
    }
  }

  lemma {:induction false} OwnedIsValid(s: Slot, sub: Tree)
    requires Owned(s, sub)
    ensures ValidValue(ValueOf(s, sub))
  {
    hide ValidTree, Hung, Shape;
    if s.Nested? {
      Snapshot(sub);
      ShapeWellFormed(sub, EntriesOf(sub));
    }
  }

  /**
   Merging the fields in any order gives one map exactly when some path cannot be set, or every field that goes
   inside another finds its own value there.
   */
  lemma {:induction false} MergeOrdersExactly(fields: seq<Field>, subs: seq<Tree>)
    requires |fields| == |subs| && Unaliased(fields, subs)
    ensures var items := ItemsOf(fields, subs);
      OrdersAgree(items) <==> (exists it :: it in items && !Settable(it.path)) || Consistent(items)
  {
    ItemsAreValid(fields, subs);
    hide *;
    OrdersAgreeExactly(ItemsOf(fields, subs));
  }

  /** Once consistent fields are merged, what stands at the segments of a field's name is the field's value. */
  lemma {:induction false} MergedFieldStands(fields: seq<Field>, subs: seq<Tree>, i: nat, path: Path)
    requires |fields| == |subs| && Unaliased(fields, subs) && i < |fields| && Parts(DottedName(fields[i]), path)
    requires Consistent(ItemsOf(fields, subs)) && SetAll(map[], ItemsOf(fields, subs)).1 == None
    ensures var merged := SetAll(map[], ItemsOf(fields, subs)).0;
      path in merged && Value(merged[path], BelowAt(merged, path)) == ValueOf(fields[i].value, subs[i])
  {
    var items := ItemsOf(fields, subs);
    assert items[i] in items;
    ItemsAreValid(fields, subs);
    SplitPathExactly(fields[i], path);
    hide SetAll, ValueOf, Unaliased, HoldsExactly, Consistent, AllValid, BelowAt, SplitPath, DottedName, Parts;
    ConsistentItemsMerge(items);
    ItemStands(SetAll(map[], items).0, items, items[i]);
  }
}
