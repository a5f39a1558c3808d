/** What a brick map means: the paths present in it and what stands at each of them. */
module BrickSpec {
  import opened Wrappers

  type Path = seq<string>

  /** A value that is no map, or a map (whose entries are the longer paths). */
  datatype Kind = Atom(text: string) | Dict

  type Contents = map<Path, Kind>

  /** A value to be stored: what it is, and its own contents if it is a map. */
  datatype Value = Value(kind: Kind, below: Contents)

  ghost predicate WellFormed(c: Contents) {
    forall p :: p in c ==> p != [] && (|p| > 1 ==> p[..|p| - 1] in c && c[p[..|p| - 1]] == Dict)
  }

  ghost predicate ValidValue(v: Value) {
    WellFormed(v.below) && (v.kind != Dict ==> v.below == map[])
  }

  /** Neither path runs through the other. */
  predicate Incomparable(p: Path, q: Path) {
    !(p <= q) && !(q <= p)
  }

  function Without(c: Contents, path: Path): Contents {
    map q | q in c && !(path <= q) :: c[q]
  }

  function Below(path: Path, below: Contents): Contents {
    map q | q in (set r | r in below :: path + r) :: below[q[|path|..]]
  }

  /** `path` now holds `v`, and nothing else. */
  function PutAt(c: Contents, path: Path, v: Value): Contents {
    Without(c, path)[path := v.kind] + Below(path, v.below)
  }

  datatype SetError = EmptyPath | EmptyKey(index: nat) | NotAMap(index: nat)

  /** Walks down from position `i`, making the missing maps on the way. */
  function Walk(c: Contents, path: Path, v: Value, i: nat): (Contents, Option<SetError>)
    requires i < |path|
    decreases |path| - i
  {
    var here := path[..i + 1];
    if path[i] == "" then (c, Some(EmptyKey(i)))
    else if i == |path| - 1 then (PutAt(c, path, v), None)
    else if here !in c then Walk(PutAt(c, here, Value(Dict, map[])), path, v, i + 1)
    else if c[here] != Dict then (c, Some(NotAMap(i)))
    else Walk(c, path, v, i + 1)
  }

  /** A path of one key is stored without looking at the key. */
  function Set(c: Contents, path: Path, v: Value): (Contents, Option<SetError>) {
    if path == [] then (c, Some(EmptyPath))
    else if |path| == 1 then (PutAt(c, path, v), None)
    else Walk(c, path, v, 0)
  }

  function Get(c: Contents, path: Path): Option<Kind> {
    if path == [] || "" in path || path !in c then None else Some(c[path])
  }

  function Delete(c: Contents, path: Path): (Contents, bool) {
    if Get(c, path).None? then (c, false) else (Without(c, path), true)
  }

  // --- prefixes -------------------------------------------------------------------------------

  lemma {:induction false} PrefixPresent(c: Contents, p: Path, n: nat)
    requires WellFormed(c) && p in c && 0 < n <= |p|
    ensures p[..n] in c && (n < |p| ==> c[p[..n]] == Dict)
    decreases |p| - n
  {
    if n < |p| {
      PrefixPresent(c, p, n + 1);
      var q := p[..n + 1];
      assert q[..|q| - 1] == p[..n];
    } else {
      assert p[..n] == p;
    }
  }

  /** Nothing stands below a path that is not present. */
  lemma {:induction false} NothingBelowMissing(c: Contents, path: Path)
    requires WellFormed(c) && path !in c && path != []
    ensures Without(c, path) == c
  {
    forall q | q in c && |path| <= |q| ensures !(path <= q) {
      PrefixPresent(c, q, |path|);
      assert q[..|path|] != path;
    }
  }

  lemma {:induction false} PutAtPoint(c: Contents, path: Path, v: Value, q: Path)
    requires WellFormed(v.below)
    ensures path <= q && q != path ==>
        (q in PutAt(c, path, v) <==> q[|path|..] in v.below) &&
        (q in PutAt(c, path, v) ==> PutAt(c, path, v)[q] == v.below[q[|path|..]])
    ensures q == path ==> q in PutAt(c, path, v) && PutAt(c, path, v)[q] == v.kind
    ensures !(path <= q) ==> (q in PutAt(c, path, v) <==> q in c) && (q in c ==> PutAt(c, path, v)[q] == c[q])
  {
    if path <= q {
      assert q == path + q[|path|..];
      forall r | path + r == q ensures r == q[|path|..] {
      }
      if q == path {
        assert q[|path|..] == [];
      }
    } else {
      forall r: Path ensures path + r != q {
      }
    }
  }

  lemma {:induction false} PutAtWellFormed(c: Contents, path: Path, v: Value)
    requires WellFormed(c) && ValidValue(v) && path != []
    requires |path| > 1 ==> path[..|path| - 1] in c && c[path[..|path| - 1]] == Dict
    ensures WellFormed(PutAt(c, path, v))
  {
    hide PutAt, Without, Below;
    var c2 := PutAt(c, path, v);
    forall p | p in c2 ensures p != [] && (|p| > 1 ==> p[..|p| - 1] in c2 && c2[p[..|p| - 1]] == Dict) {
      PutAtPoint(c, path, v, p);
      if |p| > 1 {
        var front := p[..|p| - 1];
        PutAtPoint(c, path, v, front);
        PutAtFront(c, path, v, p, front);
      }
    }
  }

  lemma {:induction false} PutAtFront(c: Contents, path: Path, v: Value, p: Path, front: Path)
    requires WellFormed(c) && ValidValue(v) && path != []
    requires |path| > 1 ==> path[..|path| - 1] in c && c[path[..|path| - 1]] == Dict
    requires |p| > 1 && front == p[..|p| - 1]
    requires if p == path then true else if path <= p then p[|path|..] in v.below else p in c
    ensures if front == path then v.kind == Dict
        else if path <= front then front[|path|..] in v.below && v.below[front[|path|..]] == Dict
            else front in c && c[front] == Dict
  {
    if path <= p && p != path {
      var r := p[|path|..];
      assert path <= front;
      if front != path {
        assert front[|path|..] == r[..|r| - 1];
      }
    }
  }

  // --- the walk in closed form ---------------------------------------------------------------------

  function Prefixes(path: Path, k: nat): set<Path>
    requires k <= |path|
  {
    set j | 0 < j <= k :: path[..j]
  }

  /** Missing maps made along the first `k` keys of `path`. */
  function MakeSpine(c: Contents, path: Path, k: nat): Contents
    requires k <= |path|
  {
    (map q | q in Prefixes(path, k) :: Dict) + c
  }

  /** What stops the walk, if anything does: an empty key, or a value that is no map on the way. */
  function FirstStop(c: Contents, path: Path, i: nat): (e: Option<SetError>)
    requires i <= |path|
    ensures e.Some? ==> !e.value.EmptyPath? && i <= e.value.index < |path|
    decreases |path| - i
  {
    if i == |path| then None
    else if path[i] == "" then Some(EmptyKey(i))
    else if i < |path| - 1 && path[..i + 1] in c && c[path[..i + 1]] != Dict then Some(NotAMap(i))
    else FirstStop(c, path, i + 1)
  }

  /** Whatever stands on the first `k` keys of the path is a map. */
  ghost predicate Open(c: Contents, path: Path, k: nat)
    requires k <= |path|
  {
    forall j :: 0 < j <= k && path[..j] in c ==> c[path[..j]] == Dict
  }

  lemma {:induction false} SpineWellFormed(c: Contents, path: Path, k: nat)
    requires WellFormed(c) && k <= |path| && Open(c, path, k)
    ensures WellFormed(MakeSpine(c, path, k))
  {
    var c2 := MakeSpine(c, path, k);
    forall p | p in c2 && |p| > 1 ensures p[..|p| - 1] in c2 && c2[p[..|p| - 1]] == Dict {
      if p !in c {
        var j :| 0 < j <= k && p == path[..j];
        assert p[..|p| - 1] == path[..j - 1];
      }
    }
  }

  /** Storing an empty map where nothing stands only adds that path. */
  lemma {:induction false} PutEmptyMap(c: Contents, here: Path)
    requires WellFormed(c) && here !in c && here != []
    ensures PutAt(c, here, Value(Dict, map[])) == c[here := Dict]
  {
    hide WellFormed;
    NothingBelowMissing(c, here);
    assert Below(here, map[]) == map[];
  }

  lemma {:induction false} SpineStep(c: Contents, path: Path, i: nat)
    requires i < |path|
    ensures var cur, here := MakeSpine(c, path, i), path[..i + 1];
      && (here in cur <==> here in c)
      && MakeSpine(c, path, i + 1) == if here in c then cur else cur[here := Dict]
  {
    var here := path[..i + 1];
    PrefixesGrow(path, i);
    forall j | 0 < j <= i ensures path[..j] != here {
      assert |path[..j]| == j;
    }
  }

  lemma {:induction false} PrefixesGrow(path: Path, i: nat)
    requires i < |path|
    ensures Prefixes(path, i + 1) == Prefixes(path, i) + {path[..i + 1]}
  {
  }

  lemma {:induction false} SpineGrows(c: Contents, path: Path, i: nat)
    requires WellFormed(c) && i + 1 < |path| && Open(c, path, i)
    ensures var cur, here := MakeSpine(c, path, i), path[..i + 1];
      && (here in cur <==> here in c)
      && MakeSpine(c, path, i + 1) == if here in c then cur else PutAt(cur, here, Value(Dict, map[]))
  {
    hide MakeSpine, PutAt, WellFormed;
    SpineStep(c, path, i);
    SpineWellFormed(c, path, i);
    if path[..i + 1] !in c {
      PutEmptyMap(MakeSpine(c, path, i), path[..i + 1]);
    }
  }

  lemma {:induction false} WalkForm(c: Contents, path: Path, v: Value, i: nat)
    requires WellFormed(c) && i < |path| && Open(c, path, i)
    ensures Walk(MakeSpine(c, path, i), path, v, i) ==
      match FirstStop(c, path, i)
      case None => (PutAt(MakeSpine(c, path, |path| - 1), path, v), None)
      case Some(e) => (MakeSpine(c, path, e.index), Some(e))
    decreases |path| - i
  {
    hide MakeSpine, PutAt;
    if path[i] != "" && i < |path| - 1 {
      SpineGrows(c, path, i);
      MadeHere(c, path, i);
      if path[..i + 1] !in c || c[path[..i + 1]] == Dict {
        WalkForm(c, path, v, i + 1);
      }
    }
  }

  lemma {:induction false} MadeHere(c: Contents, path: Path, i: nat)
    requires i < |path|
    ensures path[..i + 1] in c ==>
        path[..i + 1] in MakeSpine(c, path, i) && MakeSpine(c, path, i)[path[..i + 1]] == c[path[..i + 1]]
  {
  }

  /** A Set of more than one key, in closed form. */
  lemma {:induction false} SetForm(c: Contents, path: Path, v: Value)
    requires WellFormed(c) && |path| > 1
    ensures Set(c, path, v) ==
      match FirstStop(c, path, 0)
      case None => (PutAt(MakeSpine(c, path, |path| - 1), path, v), None)
      case Some(e) => (MakeSpine(c, path, e.index), Some(e))
  {
    assert MakeSpine(c, path, 0) == c;
    WalkForm(c, path, v, 0);
  }

  lemma {:induction false} StopMeans(c: Contents, path: Path, i: nat)
    requires i <= |path|
    ensures FirstStop(c, path, i) == None <==>
      (forall j :: i <= j < |path| ==> path[j] != "") && forall j :: i < j < |path| && path[..j] in c ==>
          c[path[..j]] == Dict
    ensures FirstStop(c, path, i).Some? ==>
      forall j :: i < j <= FirstStop(c, path, i).value.index && path[..j] in c ==> c[path[..j]] == Dict
    ensures FirstStop(c, path, i).Some? && FirstStop(c, path, i).value.NotAMap? ==>
      var k := FirstStop(c, path, i).value.index; k + 1 < |path| && path[..k + 1] in c && c[path[..k + 1]] != Dict
    decreases |path| - i
  {
    if i < |path| {
      StopMeans(c, path, i + 1);
    }
  }

  // --- laws ------------------------------------------------------------------------------------------

  /**
   A Set succeeds exactly on a non-empty path whose inner nodes are maps and, beyond one key, whose
   keys are not empty.
   */
  lemma {:induction false} SetSucceedsExactly(c: Contents, path: Path, v: Value)
    requires WellFormed(c)
    ensures Set(c, path, v).1 == None <==>
      path != [] && (|path| > 1 ==> "" !in path) && forall j :: 0 < j < |path| && path[..j] in c ==>
          c[path[..j]] == Dict
  {
    if |path| > 1 {
      SetForm(c, path, v);
      StopMeans(c, path, 0);
    }
  }

  /** The tree a successful Set puts its value into. */
  function Base(c: Contents, path: Path): Contents
    requires path != []
  {
    MakeSpine(c, path, |path| - 1)
  }

  lemma {:induction false} SuccessfulSet(c: Contents, path: Path, v: Value)
    requires WellFormed(c) && Set(c, path, v).1 == None
    ensures path != [] && Set(c, path, v).0 == PutAt(Base(c, path), path, v)
    ensures WellFormed(Base(c, path)) &&
        (|path| > 1 ==> path[..|path| - 1] in Base(c, path) && Base(c, path)[path[..|path| - 1]] == Dict)
  {
    if |path| > 1 {
      SetForm(c, path, v);
      StopMeans(c, path, 0);
      SpineWellFormed(c, path, |path| - 1);
      assert path[..|path| - 1] in Prefixes(path, |path| - 1);
    } else {
      assert Base(c, path) == c;
    }
  }

  /** After a successful Set, Get returns the value, unless the path is the single empty key. */
  lemma {:induction false} GetAfterSet(c: Contents, path: Path, v: Value)
    requires WellFormed(c) && ValidValue(v) && Set(c, path, v).1 == None
    ensures WellFormed(Set(c, path, v).0)
    ensures Get(Set(c, path, v).0, path) == if path == [""] then None else Some(v.kind)
    ensures forall r :: r in v.below && "" !in path && "" !in r ==> Get(Set(c, path, v).0, path + r) == Some(v.below[r])
  {
    hide PutAt, Base;
    SuccessfulSet(c, path, v);
    SetSucceedsExactly(c, path, v);
    PutAtWellFormed(Base(c, path), path, v);
    PutAtPoint(Base(c, path), path, v, path);
    if |path| == 1 {
      assert path == [path[0]];
    }
    forall r | r in v.below && "" !in path && "" !in r ensures Get(Set(c, path, v).0, path + r) == Some(v.below[r]) {
      PutAtPoint(Base(c, path), path, v, path + r);
      assert (path + r)[|path|..] == r;
    }
  }

  /** Set leaves every path alone that is incomparable with its own, whether it succeeds or not. */
  lemma {:induction false} SetKeepsIncomparable(c: Contents, path: Path, v: Value, q: Path)
    requires WellFormed(c) && ValidValue(v) && Incomparable(path, q)
    ensures q in Set(c, path, v).0 <==> q in c
    ensures q in c ==> Set(c, path, v).0[q] == c[q]
  {
    if path != [] {
      assert forall j :: 0 <= j <= |path| ==> path[..j] != q;
      if |path| == 1 {
        PutAtPoint(c, path, v, q);
      } else {
        SetForm(c, path, v);
        PutAtPoint(Base(c, path), path, v, q);
      }
    }
  }

  lemma {:induction false} SpineAlreadyThere(c: Contents, path: Path, k: nat)
    requires WellFormed(c) && k < |path| && path[..k + 1] in c
    ensures MakeSpine(c, path, k) == c
  {
    forall j | 0 < j <= k ensures path[..j] in c {
      PrefixPresent(c, path[..k + 1], j);
      assert path[..k + 1][..j] == path[..j];
    }
  }

  lemma {:induction false} SpineAdds(c: Contents, path: Path, k: nat)
    requires k < |path|
    ensures forall q :: q in c ==> q in MakeSpine(c, path, k) && MakeSpine(c, path, k)[q] == c[q]
    ensures forall q :: q in MakeSpine(c, path, k) && q !in c ==>
        MakeSpine(c, path, k)[q] == Dict && q <= path && q != path
  {
    forall q | q in Prefixes(path, k) ensures q <= path && q != path {
      var j :| 0 < j <= k && q == path[..j];
      assert |q| == j;
    }
  }

  /** A Set stopped by a value that is no map changes nothing; one stopped by an empty key adds at most empty maps. */
  lemma {:induction false} RejectedSet(c: Contents, path: Path, v: Value)
    requires WellFormed(c) && Set(c, path, v).1.Some?
    ensures var (c2, err) := Set(c, path, v);
      && WellFormed(c2)
      && (!err.value.EmptyKey? ==> c2 == c)
      && (forall q :: q in c ==> q in c2 && c2[q] == c[q])
      && (forall q :: q in c2 && q !in c ==> c2[q] == Dict && q <= path && q != path)
  {
    hide *;
    if path == [] {
      SetNoKeys(c, v);
    } else {
      var e := RejectedForm(c, path, v);
      SpineAdds(c, path, e.index);
      if e.NotAMap? {
        SpineAlreadyThere(c, path, e.index);
      }
    }
  }

  lemma {:induction false} SetNoKeys(c: Contents, v: Value)
    ensures Set(c, [], v) == (c, Some(EmptyPath))
  {
  }

  lemma {:induction false} RejectedForm(c: Contents, path: Path, v: Value) returns (e: SetError)
    requires WellFormed(c) && path != [] && Set(c, path, v).1.Some?
    ensures !e.EmptyPath? && e.index < |path| && Set(c, path, v) == (MakeSpine(c, path, e.index), Some(e))
    ensures WellFormed(MakeSpine(c, path, e.index)) && (e.NotAMap? ==> path[..e.index + 1] in c)
  {
    hide MakeSpine;
    SetForm(c, path, v);
    StopMeans(c, path, 0);
    e := FirstStop(c, path, 0).value;
    SpineWellFormed(c, path, e.index);
  }

  /** Delete answers true exactly when Get would find the path, and removes that path with all below it. */
  lemma {:induction false} DeleteLaws(c: Contents, path: Path, q: Path)
    requires WellFormed(c)
    ensures WellFormed(Delete(c, path).0)
    ensures Delete(c, path).1 <==> Get(c, path).Some?
    ensures q in Delete(c, path).0 <==> q in c && !(Delete(c, path).1 && path <= q)
    ensures q in Delete(c, path).0 ==> Delete(c, path).0[q] == c[q]
  {
    var c2 := Delete(c, path).0;
    forall p | p in c2 && |p| > 1 ensures p[..|p| - 1] in c2 {
      assert path <= p[..|p| - 1] ==> path <= p;
    }
  }
}
