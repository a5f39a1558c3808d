/** Canonical query flattening: pkg/querytranspose/aws_canonical_querytranspose.go. */
module CanonicalQuery {
  import opened Wrappers
  import opened GoStrings
  import opened Decimal

  /** Decoded JSON. `text` is what `%v` prints; `textual` says that the scalar is a number or a string. */
  datatype Json = Scalar(text: string, textual: bool) | Array(items: seq<Json>) | Object(entries: map<string, Json>)

  datatype Step = Key(k: string) | Index(i: nat)

  function Label(s: Step): string {
    match s case Key(k) => k case Index(i) => FormatNat(i + 1)
  }

  /** The dotted name of a path, list positions counted from one. */
  function Dotted(base: string, path: seq<Step>): string
    decreases |path|
  {
    if path == [] then base else Dotted(base + "." + Label(path[0]), path[1..])
  }

  /** A key is its own label; the first element of a list is labelled 1. */
  ghost predicate Labels(s: Step, text: string) {
    match s
    case Key(k) => text == k
    case Index(i) => text != "" && AllDigits(text) && ParseNat(text) == i + 1
  }

  lemma {:induction false} LabelLabels(s: Step)
    ensures Labels(s, Label(s))
  {
    if s.Index? {
      ParseFormatNat(s.i + 1);
    }
  }

  /** A dotted name is the base and the labels of the steps, joined by dots. */
  lemma {:induction false} DottedExactly(base: string, path: seq<Step>) returns (labels: seq<string>)
    ensures |labels| == |path| && forall i :: 0 <= i < |path| ==> Labels(path[i], labels[i])
    ensures Dotted(base, path) == Join([base] + labels, ".")
    decreases |path|
  {
    hide Labels, Label;
    if path == [] {
      labels := [];
    } else {
      LabelLabels(path[0]);
      var rest := DottedExactly(base + "." + Label(path[0]), path[1..]);
      labels := [Label(path[0])] + rest;
      JoinTwo(base, Label(path[0]), rest);
    }
  }

  lemma {:induction false} JoinTwo(a: string, b: string, rest: seq<string>)
    ensures Join([a] + ([b] + rest), ".") == Join([a + "." + b] + rest, ".")
  {
    assert ([a] + ([b] + rest))[1..] == [b] + rest && ([b] + rest)[1..] == rest && ([a + "." + b] + rest)[1..] == rest;
  }

  /** The text of the scalar at a path, if a scalar is there. */
  function LeafAt(v: Json, path: seq<Step>): Option<string>
    decreases |path|
  {
    match v
    case Scalar(text, _) => if path == [] then Some(text) else None
    case Array(items) => if path != [] && path[0].Index? && path[0].i < |items|
        then LeafAt(items[path[0].i], path[1..]) else None
    case Object(entries) => if path != [] && path[0].Key? && path[0].k in entries
        then LeafAt(entries[path[0].k], path[1..]) else None
  }

  /** The flat map holds the leaves of `v` under their dotted names, and nothing else. */
  ghost predicate Flattens(base: string, v: Json, flat: map<string, string>) {
    && (forall p :: LeafAt(v, p).Some? ==> Dotted(base, p) in flat)
    && (forall name :: name in flat ==> NamesLeaf(base, v, name, flat[name]))
  }

  ghost predicate NamesLeaf(base: string, v: Json, name: string, text: string) {
    exists p :: LeafAt(v, p) == Some(text) && Dotted(base, p) == name
  }

  // --- runs --------------------------------------------------------------------------------------------

  predicate HasStep(v: Json, s: Step) {
    if v.Array? then s.Index? && s.i < |v.items| else v.Object? && s.Key? && s.k in v.entries
  }

  function Child(v: Json, s: Step): (c: Json)
    requires HasStep(v, s)
    ensures c < v
  {
    if v.Array? then v.items[s.i] else v.entries[s.k]
  }

  function Indices(n: nat): seq<Step> {
    seq(n, i requires 0 <= i < n => Index(i))
  }

  /** A list is ranged over from its start, an object in any order of its keys. */
  ghost predicate IsOrder(v: Json, order: seq<Step>) {
    if v.Array? then order == Indices(|v.items|)
    else
      && v.Object? && (forall s :: s in order ==> HasStep(v, s)) && (forall k :: k in v.entries ==> Key(k) in order)
      && forall i, j :: 0 <= i < j < |order| ==> order[i] != order[j]
  }

  /** Later entries overwrite earlier ones of the same name. */
  function MergeAll(subs: seq<map<string, string>>): map<string, string> {
    if subs == [] then map[] else MergeAll(subs[..|subs| - 1]) + subs[|subs| - 1]
  }

  /** `flat` is what some run makes of `v`, every object ranged over in an order of its own. */
  ghost predicate RunOf(base: string, v: Json, flat: map<string, string>)
    decreases v, 1
  {
    if v.Scalar? then flat == map[base := v.text]
    else exists order, subs :: IsOrder(v, order) && SubRuns(base, v, order, subs) && flat == MergeAll(subs)
  }

  ghost predicate SubRuns(base: string, v: Json, order: seq<Step>, subs: seq<map<string, string>>)
    decreases v, 0
  {
    |subs| == |order| && forall i :: 0 <= i < |order| ==>
        HasStep(v, order[i]) && RunOf(base + "." + Label(order[i]), Child(v, order[i]), subs[i])
  }

  /** One entry, flattened on its own or printed. */
  method FlattenEntry(kJoined: string, v: Json) returns (flat: map<string, string>)
    ensures RunOf(kJoined, v, flat)
    decreases v, 1
  {
    match v
    case Array(_) => flat := UnmarshalSlice(kJoined, v);
    case Object(_) => flat := UnmarshalMap(kJoined, v);
    case Scalar(text, _) => flat := map[kJoined := text];
  }

  /** Flattens an object, its keys in any order. */
  method UnmarshalMap(baseKey: string, v: Json) returns (rv: map<string, string>)
    requires v.Object?
    ensures RunOf(baseKey, v, rv)
    decreases v, 0
  {
    hide RunOf, MergeAll, SubRuns;
    rv := map[];
    ghost var order, subs: seq<map<string, string>> := [], [];
    NoSubRuns(baseKey, v);
    var keys := v.entries.Keys;
    while keys != {}
      invariant keys <= v.entries.Keys
      invariant forall k :: k in v.entries <==> k in keys || Key(k) in order
      invariant forall s :: s in order ==> HasStep(v, s) && s.k !in keys
      invariant forall i, j :: 0 <= i < j < |order| ==> order[i] != order[j]
      invariant SubRuns(baseKey, v, order, subs) && rv == MergeAll(subs)
      decreases |keys|
    {
      var k :| k in keys;
      keys := keys - {k};
      var sub := FlattenEntry(baseKey + "." + k, v.entries[k]);
      OneMoreRun(baseKey, v, order, subs, Key(k), sub);
      order, subs := order + [Key(k)], subs + [sub];
      rv := rv + sub;
    }
    RunBy(baseKey, v, order, subs);
  }

  /** Flattens a list, element by element. */
  method UnmarshalSlice(baseKey: string, v: Json) returns (rv: map<string, string>)
    requires v.Array?
    ensures RunOf(baseKey, v, rv)
    decreases v, 0
  {
    hide RunOf, MergeAll, SubRuns;
    rv := map[];
    ghost var subs: seq<map<string, string>> := [];
    NoSubRuns(baseKey, v);
    assert Indices(0) == [];
    for i := 0 to |v.items|
      invariant SubRuns(baseKey, v, Indices(i), subs) && rv == MergeAll(subs)
    {
      var sub := FlattenEntry(baseKey + "." + FormatNat(i + 1), v.items[i]);
      OneMoreRun(baseKey, v, Indices(i), subs, Index(i), sub);
      assert Indices(i + 1) == Indices(i) + [Index(i)];
      subs := subs + [sub];
      rv := rv + sub;
    }
    RunBy(baseKey, v, Indices(|v.items|), subs);
  }

  lemma {:induction false} NoSubRuns(base: string, v: Json)
    ensures SubRuns(base, v, [], []) && MergeAll([]) == map[]
  {
  }

  lemma {:induction false} OneMoreRun(base: string, v: Json, order: seq<Step>, subs: seq<map<string, string>>, s: Step,
          sub: map<string, string>)
    requires SubRuns(base, v, order, subs) && HasStep(v, s) && RunOf(base + "." + Label(s), Child(v, s), sub)
    ensures SubRuns(base, v, order + [s], subs + [sub]) && MergeAll(subs + [sub]) == MergeAll(subs) + sub
  {
    hide RunOf;
    assert (subs + [sub])[..|subs|] == subs;
  }

  lemma {:induction false} RunBy(base: string, v: Json, order: seq<Step>, subs: seq<map<string, string>>)
    requires !v.Scalar? && IsOrder(v, order) && SubRuns(base, v, order, subs)
    ensures RunOf(base, v, MergeAll(subs))
  {
    hide IsOrder, SubRuns, MergeAll;
  }

  /** The whole input, flattened; a boolean or null at the top is refused. */
  method Transpose(baseKey: string, v: Json) returns (flat: Option<map<string, string>>)
    ensures flat.None? <==> v.Scalar? && !v.textual
    ensures flat.Some? ==> RunOf(baseKey, v, flat.value)
  {
    if v.Scalar? && !v.textual {
      return None;
    }
    var rv := FlattenEntry(baseKey, v);
    return Some(rv);
  }

  // --- what every run holds --------------------------------------------------------------------------------

  lemma {:induction false} MergeMembers(subs: seq<map<string, string>>)
    ensures forall i, name :: 0 <= i < |subs| && name in subs[i] ==> name in MergeAll(subs)
    ensures forall name :: name in MergeAll(subs) ==> exists i ::
        0 <= i < |subs| && name in subs[i] && subs[i][name] == MergeAll(subs)[name]
  {
    if subs != [] {
      var front, last := subs[..|subs| - 1], subs[|subs| - 1];
      MergeMembers(front);
      assert forall i :: 0 <= i < |front| ==> subs[i] == front[i];
      forall name | name in MergeAll(subs)
        ensures exists i :: 0 <= i < |subs| && name in subs[i] && subs[i][name] == MergeAll(subs)[name] {
        if name in last {
          assert subs[|subs| - 1][name] == MergeAll(subs)[name];
        } else {
          assert MergeAll(subs) == MergeAll(front) + last && name in MergeAll(front);
          var i :| 0 <= i < |front| && name in front[i] && front[i][name] == MergeAll(front)[name];
          assert name in subs[i];
        }
      }
    }
  }

  lemma {:induction false} LeafBelow(base: string, v: Json, s: Step, p: seq<Step>)
    requires HasStep(v, s)
    ensures LeafAt(v, [s] + p) == LeafAt(Child(v, s), p) && Dotted(base, [s] + p) == Dotted(base + "." + Label(s), p)
  {
    assert ([s] + p)[1..] == p;
  }

  lemma {:induction false} LeafAbove(base: string, v: Json, p: seq<Step>)
    requires LeafAt(v, p).Some? && !v.Scalar?
    ensures p != [] && HasStep(v, p[0]) && LeafAt(v, p) == LeafAt(Child(v, p[0]), p[1..])
    ensures Dotted(base, p) == Dotted(base + "." + Label(p[0]), p[1..])
  {
  }

  /** Every run holds the leaves under their dotted names, each name with the text of one of its leaves. */
  lemma {:induction false} RunFlattens(base: string, v: Json, flat: map<string, string>)
    requires RunOf(base, v, flat)
    ensures Flattens(base, v, flat)
    decreases v
  {
    if v.Scalar? {
      assert LeafAt(v, []) == Some(v.text) && Dotted(base, []) == base;
    } else {
      var order, subs :| IsOrder(v, order) && SubRuns(base, v, order, subs) && flat == MergeAll(subs);
      hide RunOf, MergeAll, Dotted, LeafAt, Flattens;
      forall i | 0 <= i < |order|
          ensures HasStep(v, order[i]) && Flattens(base + "." + Label(order[i]), Child(v, order[i]), subs[i]) {
        RunFlattens(base + "." + Label(order[i]), Child(v, order[i]), subs[i]);
      }
      FlattensFrom(base, v, order, subs);
    }
  }

  lemma {:induction false} OrderHas(v: Json, order: seq<Step>, s: Step) returns (i: nat)
    requires IsOrder(v, order) && HasStep(v, s)
    ensures i < |order| && order[i] == s
  {
    if v.Array? {
      i := s.i;
    } else {
      i :| 0 <= i < |order| && order[i] == s;
    }
  }

  lemma {:induction false} FlattensFrom(base: string, v: Json, order: seq<Step>, subs: seq<map<string, string>>)
    requires !v.Scalar? && IsOrder(v, order) && |subs| == |order|
    requires forall i :: 0 <= i < |order| ==>
        HasStep(v, order[i]) && Flattens(base + "." + Label(order[i]), Child(v, order[i]), subs[i])
    ensures Flattens(base, v, MergeAll(subs))
  {
    hide MergeAll, Dotted, LeafAt, IsOrder, Child, Label, NamesLeaf;
    MergeMembers(subs);
    forall p | LeafAt(v, p).Some? ensures Dotted(base, p) in MergeAll(subs) {
      LeafAbove(base, v, p);
      var i := OrderHas(v, order, p[0]);
      assert Flattens(base + "." + Label(order[i]), Child(v, order[i]), subs[i]);
    }
    forall name | name in MergeAll(subs) ensures NamesLeaf(base, v, name, MergeAll(subs)[name]) {
      var i :| 0 <= i < |subs| && name in subs[i] && subs[i][name] == MergeAll(subs)[name];
      assert Flattens(base + "." + Label(order[i]), Child(v, order[i]), subs[i]);
      NamedAbove(base, v, order[i], name, subs[i][name]);
    }
  }

  lemma {:induction false} NamedAbove(base: string, v: Json, s: Step, name: string, text: string)
    requires HasStep(v, s) && NamesLeaf(base + "." + Label(s), Child(v, s), name, text)
    ensures NamesLeaf(base, v, name, text)
  {
    hide Dotted, LeafAt, Child;
    var p :| LeafAt(Child(v, s), p) == Some(text) && Dotted(base + "." + Label(s), p) == name;
    LeafBelow(base, v, s, p);
  }

  // --- when names are unique ------------------------------------------------------------------------

  /** No key of any object in the value has a dot in it. */
  ghost predicate DotFree(v: Json) {
    match v
    case Scalar(_, _) => true
    case Array(items) => forall i :: 0 <= i < |items| ==> DotFree(items[i])
    case Object(entries) => forall k :: k in entries ==> '.' !in k && DotFree(entries[k])
  }

  function Suffix(path: seq<Step>): string {
    if path == [] then "" else "." + Label(path[0]) + Suffix(path[1..])
  }

  lemma {:induction false} DottedSuffix(base: string, path: seq<Step>)
    ensures Dotted(base, path) == base + Suffix(path)
    decreases |path|
  {
    if path == [] {
      assert base + "" == base;
    } else {
      DottedSuffix(base + "." + Label(path[0]), path[1..]);
      assert base + "." + Label(path[0]) + Suffix(path[1..]) == base + ("." + Label(path[0]) + Suffix(path[1..]));
    }
  }

  /** Up to the next dot, two names agree. */
  lemma {:induction false} FirstLabel(a: string, x: string, b: string, y: string)
    requires '.' !in a && '.' !in b && a + x == b + y
    requires (x == "" || x[0] == '.') && (y == "" || y[0] == '.')
    ensures a == b && x == y
  {
    assert (a + x)[..|a|] == a && (b + y)[..|b|] == b && (a + x)[|a|..] == x && (b + y)[|b|..] == y;
  }

  lemma {:induction false} NumberLabel(i: nat, j: nat)
    ensures '.' !in FormatNat(i) && (FormatNat(i) == FormatNat(j) ==> i == j)
  {
    ParseFormatNat(i);
    ParseFormatNat(j);
    hide FormatNat;
    assert AllDigits(FormatNat(i)) && !IsDigit('.');
  }

  /** With no dot in a key, two leaves have different names. */
  lemma {:induction false} NamesDistinct(v: Json, p: seq<Step>, q: seq<Step>)
    requires DotFree(v) && LeafAt(v, p).Some? && LeafAt(v, q).Some? && Suffix(p) == Suffix(q)
    ensures p == q
    decreases v
  {
    hide FormatNat;
    if !v.Scalar? {
      var x, y := Suffix(p[1..]), Suffix(q[1..]);
      assert Suffix(p)[1..] == Label(p[0]) + x && Suffix(q)[1..] == Label(q[0]) + y;
      if v.Array? {
        NumberLabel(p[0].i + 1, q[0].i + 1);
        NumberLabel(q[0].i + 1, p[0].i + 1);
      }
      FirstLabel(Label(p[0]), x, Label(q[0]), y);
      assert p[0] == q[0] && p == [p[0]] + p[1..] && q == [q[0]] + q[1..];
      NamesDistinct(if v.Array? then v.items[p[0].i] else v.entries[p[0].k], p[1..], q[1..]);
    }
  }

  /** Leaves of one name have one text. */
  ghost predicate NamesDecide(base: string, v: Json) {
    forall p, q :: LeafAt(v, p).Some? && LeafAt(v, q).Some? && Dotted(base, p) == Dotted(base, q) ==>
        LeafAt(v, p) == LeafAt(v, q)
  }

  lemma {:induction false} SameHeld(base: string, v: Json, a: map<string, string>, b: map<string, string>)
    requires NamesDecide(base, v) && Flattens(base, v, a) && Flattens(base, v, b)
    ensures forall name :: name in a ==> name in b && b[name] == a[name]
  {
    hide LeafAt, Dotted;
    forall name | name in a ensures name in b && b[name] == a[name] {
      assert NamesLeaf(base, v, name, a[name]);
      var p :| LeafAt(v, p) == Some(a[name]) && Dotted(base, p) == name;
      assert NamesLeaf(base, v, name, b[name]);
      var q :| LeafAt(v, q) == Some(b[name]) && Dotted(base, q) == name;
    }
  }

  lemma {:induction false} SameName(base: string, v: Json, p: seq<Step>, q: seq<Step>)
    requires DotFree(v) && LeafAt(v, p).Some? && LeafAt(v, q).Some? && Dotted(base, p) == Dotted(base, q)
    ensures p == q
  {
    hide LeafAt, Dotted, DotFree, Suffix;
    DottedSuffix(base, p);
    DottedSuffix(base, q);
    assert (base + Suffix(p))[|base|..] == Suffix(p) && (base + Suffix(q))[|base|..] == Suffix(q);
    NamesDistinct(v, p, q);
  }

  lemma {:induction false} HoldsLeaf(base: string, v: Json, flat: map<string, string>, p: seq<Step>)
    requires NamesDecide(base, v) && Flattens(base, v, flat) && LeafAt(v, p).Some?
    ensures Dotted(base, p) in flat && flat[Dotted(base, p)] == LeafAt(v, p).value
  {
    hide LeafAt, Dotted;
    assert NamesLeaf(base, v, Dotted(base, p), flat[Dotted(base, p)]);
  }

  /**
   With no dot in a key, each name in the result holds its one leaf, and the result does not depend
   on the order of keys.
   */
  lemma {:induction false} FlattenIsExact(base: string, v: Json, flat: map<string, string>, other: map<string, string>)
    requires DotFree(v) && Flattens(base, v, flat) && Flattens(base, v, other)
    ensures flat == other
    ensures forall p :: LeafAt(v, p).Some? ==> flat[Dotted(base, p)] == LeafAt(v, p).value
    ensures forall p, q :: LeafAt(v, p).Some? && LeafAt(v, q).Some? && Dotted(base, p) == Dotted(base, q) ==> p == q
  {
    hide LeafAt, Dotted, DotFree, Flattens;
    forall p, q | LeafAt(v, p).Some? && LeafAt(v, q).Some? && Dotted(base, p) == Dotted(base, q) ensures p == q {
      SameName(base, v, p, q);
    }
    assert NamesDecide(base, v);
    hide NamesDecide;
    SameHeld(base, v, flat, other);
    SameHeld(base, v, other, flat);
    assert flat.Keys == other.Keys;
    forall p | LeafAt(v, p).Some? ensures Dotted(base, p) in flat && flat[Dotted(base, p)] == LeafAt(v, p).value {
      HoldsLeaf(base, v, flat, p);
    }
  }

  // --- which results a run can have -------------------------------------------------------------------------

  lemma {:induction false} KeysInOrder(keys: set<string>) returns (order: seq<Step>)
    ensures forall s :: s in order ==> s.Key? && s.k in keys
    ensures forall k :: k in keys ==> Key(k) in order
    ensures forall i, j :: 0 <= i < j < |order| ==> order[i] != order[j]
  {
    if keys == {} {
      order := [];
    } else {
      var k :| k in keys;
      var rest := KeysInOrder(keys - {k});
      order := rest + [Key(k)];
    }
  }

  lemma {:induction false} SomeOrder(v: Json) returns (order: seq<Step>)
    requires !v.Scalar?
    ensures IsOrder(v, order)
  {
    if v.Array? {
      order := Indices(|v.items|);
    } else {
      order := KeysInOrder(v.entries.Keys);
    }
  }

  lemma {:induction false} OrderEndingIn(v: Json, k: string) returns (order: seq<Step>)
    requires v.Object? && k in v.entries
    ensures IsOrder(v, order) && |order| > 0 && order[|order| - 1] == Key(k)
  {
    var rest := KeysInOrder(v.entries.Keys - {k});
    order := rest + [Key(k)];
  }

  lemma {:induction false} OrderSteps(v: Json, order: seq<Step>)
    requires IsOrder(v, order)
    ensures forall s :: s in order ==> HasStep(v, s)
  {
  }

  lemma {:induction false} SomeRun(base: string, v: Json) returns (flat: map<string, string>)
    ensures RunOf(base, v, flat)
    decreases v, 1, 0
  {
    if v.Scalar? {
      flat := map[base := v.text];
    } else {
      hide RunOf, SubRuns, MergeAll;
      var order := SomeOrder(v);
      OrderSteps(v, order);
      var subs := SomeSubRuns(base, v, order);
      RunBy(base, v, order, subs);
      flat := MergeAll(subs);
    }
  }

  lemma {:induction false} SomeSubRuns(base: string, v: Json, order: seq<Step>) returns (subs: seq<map<string, string>>)
    requires forall s :: s in order ==> HasStep(v, s)
    ensures SubRuns(base, v, order, subs)
    decreases v, 0, |order|
  {
    hide RunOf, SubRuns, MergeAll;
    if order == [] {
      NoSubRuns(base, v);
      subs := [];
    } else {
      var front, s := order[..|order| - 1], order[|order| - 1];
      var rest := SomeSubRuns(base, v, front);
      var sub := SomeRun(base + "." + Label(s), Child(v, s));
      OneMoreRun(base, v, front, rest, s, sub);
      assert front + [s] == order;
      subs := rest + [sub];
    }
  }

  lemma {:induction false} SubRunPut(base: string, v: Json, order: seq<Step>, subs: seq<map<string, string>>, i: nat,
          sub: map<string, string>)
    requires SubRuns(base, v, order, subs) && i < |order| && HasStep(v, order[i])
    requires RunOf(base + "." + Label(order[i]), Child(v, order[i]), sub)
    ensures |subs| == |order| && SubRuns(base, v, order, subs[i := sub])
  {
    hide RunOf;
  }

  /** Every leaf is the one kept under its name in some run. */
  lemma {:induction false} LeafSurvives(base: string, v: Json, p: seq<Step>) returns (flat: map<string, string>)
    requires LeafAt(v, p).Some?
    ensures RunOf(base, v, flat) && Dotted(base, p) in flat && flat[Dotted(base, p)] == LeafAt(v, p).value
    decreases v
  {
    if v.Scalar? {
      flat := map[base := v.text];
    } else {
      hide RunOf, SubRuns, MergeAll, Dotted, LeafAt;
      LeafAbove(base, v, p);
      var s := p[0];
      var sub := LeafSurvives(base + "." + Label(s), Child(v, s), p[1..]);
      if v.Array? {
        flat := KeptInArray(base, v, s, sub, Dotted(base, p));
      } else {
        flat := KeptInObject(base, v, s, sub, Dotted(base, p));
      }
    }
  }

  /** The entry ranged over last keeps all its names. */
  lemma {:induction false} KeptInObject(base: string, v: Json, s: Step, sub: map<string, string>, name: string)
      returns (flat: map<string, string>)
    requires v.Object? && HasStep(v, s) && RunOf(base + "." + Label(s), Child(v, s), sub) && name in sub
    ensures RunOf(base, v, flat) && name in flat && flat[name] == sub[name]
  {
    hide RunOf, SubRuns, MergeAll, IsOrder;
    var order := OrderEndingIn(v, s.k);
    OrderSteps(v, order);
    var subs := SomeSubRuns(base, v, order);
    SubRunPut(base, v, order, subs, |order| - 1, sub);
    var all := subs[|order| - 1 := sub];
    RunBy(base, v, order, all);
    flat := MergeAll(all);
    MergeLast(all);
  }

  lemma {:induction false} MergeLast(subs: seq<map<string, string>>)
    requires subs != []
    ensures MergeAll(subs) == MergeAll(subs[..|subs| - 1]) + subs[|subs| - 1]
  {
  }

  /** No two elements of a list share a name. */
  lemma {:induction false} KeptInArray(base: string, v: Json, s: Step, sub: map<string, string>, name: string)
      returns (flat: map<string, string>)
    requires v.Array? && HasStep(v, s) && RunOf(base + "." + Label(s), Child(v, s), sub) && name in sub
    ensures RunOf(base, v, flat) && name in flat && flat[name] == sub[name]
  {
    hide RunOf, MergeAll, Label;
    var order := Indices(|v.items|);
    var subs := SomeSubRuns(base, v, order);
    assert order[s.i] == s;
    SubRunPut(base, v, order, subs, s.i, sub);
    var all := subs[s.i := sub];
    RunBy(base, v, order, all);
    flat := MergeAll(all);
    MergeMembers(all);
    assert name in all[s.i];
    var j :| 0 <= j < |all| && name in all[j] && all[j][name] == MergeAll(all)[name];
    assert RunOf(base + "." + Label(order[j]), Child(v, order[j]), all[j]);
    SameElement(base, s.i, j, v.items[s.i], v.items[j], sub, all[j], name);
  }

  lemma {:induction false} SameElement(base: string, i: nat, j: nat, x: Json, y: Json, a: map<string, string>,
          b: map<string, string>, name: string)
    requires RunOf(base + "." + Label(Index(i)), x, a) && RunOf(base + "." + Label(Index(j)), y, b)
    requires name in a && name in b
    ensures i == j
  {
    hide RunOf, Dotted, FormatNat;
    RunFlattens(base + "." + Label(Index(i)), x, a);
    RunFlattens(base + "." + Label(Index(j)), y, b);
    assert NamesLeaf(base + "." + Label(Index(i)), x, name, a[name]) &&
        NamesLeaf(base + "." + Label(Index(j)), y, name, b[name]);
    var p :| LeafAt(x, p) == Some(a[name]) && Dotted(base + "." + Label(Index(i)), p) == name;
    var q :| LeafAt(y, q) == Some(b[name]) && Dotted(base + "." + Label(Index(j)), q) == name;
    DottedSuffix(base + "." + Label(Index(i)), p);
    DottedSuffix(base + "." + Label(Index(j)), q);
    ElementNames(base, i, j, Suffix(p), Suffix(q));
  }

  lemma {:induction false} ElementNames(base: string, i: nat, j: nat, x: string, y: string)
    requires base + "." + FormatNat(i + 1) + x == base + "." + FormatNat(j + 1) + y
    requires (x == "" || x[0] == '.') && (y == "" || y[0] == '.')
    ensures i == j
  {
    hide FormatNat;
    var a, b, lead := FormatNat(i + 1), FormatNat(j + 1), base + ".";
    assert (lead + a + x)[|lead|..] == a + x && (lead + b + y)[|lead|..] == b + y;
    NumberLabel(i + 1, j + 1);
    NumberLabel(j + 1, i + 1);
    FirstLabel(a, x, b, y);
  }

  /** No two runs differ. */
  ghost predicate RunsAgree(base: string, v: Json) {
    forall a, b :: RunOf(base, v, a) && RunOf(base, v, b) ==> a == b
  }

  /** The order of keys does not show exactly when leaves of one name have one text. */
  lemma {:induction false} RunsAgreeExactly(base: string, v: Json)
    ensures RunsAgree(base, v) <==> NamesDecide(base, v)
  {
    hide RunOf, NamesDecide;
    if NamesDecide(base, v) {
      forall a, b | RunOf(base, v, a) && RunOf(base, v, b) ensures a == b {
        RunFlattens(base, v, a);
        RunFlattens(base, v, b);
        SameHeld(base, v, a, b);
        SameHeld(base, v, b, a);
        assert a.Keys == b.Keys;
      }
    }
    if RunsAgree(base, v) {
      AgreeDecides(base, v);
    }
  }

  lemma {:induction false} AgreeDecides(base: string, v: Json)
    requires RunsAgree(base, v)
    ensures NamesDecide(base, v)
  {
    hide RunOf, LeafAt, Dotted;
    forall p, q | LeafAt(v, p).Some? && LeafAt(v, q).Some? && Dotted(base, p) == Dotted(base, q)
      ensures LeafAt(v, p) == LeafAt(v, q) {
      var a := LeafSurvives(base, v, p);
      var b := LeafSurvives(base, v, q);
    }
  }

  /**
   A key with a dot can share its name with a nested key, and then one run keeps one of the leaves
   and one run the other.
   */
  lemma {:induction false} DottedKeysCollide(base: string, outer: string, inner: string, x: string, y: string)
      returns (a: map<string, string>, b: map<string, string>)
    ensures var v := Object(map[outer := Object(map[inner := Scalar(x, true)]),
        outer + "." + inner := Scalar(y, true)]);
      var name := base + "." + outer + "." + inner;
      RunOf(base, v, a) && RunOf(base, v, b) && name in a && a[name] == x && name in b && b[name] == y
  {
    hide RunOf;
    var dotted := outer + "." + inner;
    var nested := Object(map[inner := Scalar(x, true)]);
    var v := Object(map[outer := nested, dotted := Scalar(y, true)]);
    var name := base + "." + outer + "." + inner;
    assert |dotted| > |outer|;
    assert base + "." + dotted == name;
    LeafBelow(base + "." + outer, nested, Key(inner), []);
    LeafBelow(base, v, Key(outer), [Key(inner)]);
    LeafBelow(base, v, Key(dotted), []);
    hide LeafAt;
    assert [Key(inner)] + [] == [Key(inner)] && [Key(dotted)] + [] == [Key(dotted)];
    assert Dotted(base, [Key(outer)] + [Key(inner)]) == name;
    a := LeafSurvives(base, v, [Key(outer)] + [Key(inner)]);
    b := LeafSurvives(base, v, [Key(dotted)]);
  }
}
