/** The transitive schema closure: resolveTransitiveSchemas in public/closure/closure.go. */
module ClosureReach {
  import opened DocTree
  import opened ClosureRefs

  ghost function SchemaKeys(y: Yaml): set<string> {
    ComponentKeys(y, "schemas")
  }

  /** A chain of references: it starts at a seed and each schema mentions the next one. */
  ghost predicate Chain(schemas: Dict, seed: set<string>, path: seq<string>) {
    && path != []
    && path[0] in seed
    && forall i :: 0 <= i < |path| - 1 ==> path[i] in schemas && path[i + 1] in SchemaKeys(schemas[path[i]])
  }

  ghost predicate Reachable(schemas: Dict, seed: set<string>, key: string) {
    exists path :: Chain(schemas, seed, path) && path[|path| - 1] == key
  }

  /** Whatever the schemas named in `from` mention is in `keys`. */
  ghost predicate Absorbed(schemas: Dict, from: set<string>, keys: set<string>) {
    forall k :: k in from && k in schemas ==> SchemaKeys(schemas[k]) <= keys
  }

  ghost predicate Closed(schemas: Dict, keys: set<string>) {
    Absorbed(schemas, keys, keys)
  }

  /** Every key that some schema mentions. */
  ghost function Mentioned(schemas: Dict): set<string> {
    set k, r | k in schemas && r in SchemaKeys(schemas[k]) :: r
  }

  ghost function ReachSet(schemas: Dict, seed: set<string>): set<string> {
    set k | k in seed + Mentioned(schemas) && Reachable(schemas, seed, k)
  }

  lemma {:induction false} SeedReachable(schemas: Dict, seed: set<string>, key: string)
    requires key in seed
    ensures Reachable(schemas, seed, key)
  {
    assert Chain(schemas, seed, [key]);
  }

  lemma {:induction false} StepReachable(schemas: Dict, seed: set<string>, key: string, next: string)
    requires Reachable(schemas, seed, key) && key in schemas && next in SchemaKeys(schemas[key])
    ensures Reachable(schemas, seed, next)
  {
    var path :| Chain(schemas, seed, path) && path[|path| - 1] == key;
    assert Chain(schemas, seed, path + [next]);
  }

  lemma {:induction false} ChainStaysInClosed(schemas: Dict, seed: set<string>, keys: set<string>, path: seq<string>)
    requires Chain(schemas, seed, path) && seed <= keys && Closed(schemas, keys)
    ensures path[|path| - 1] in keys
    decreases |path|
  {
    if |path| > 1 {
      var front := path[..|path| - 1];
      assert Chain(schemas, seed, front);
      ChainStaysInClosed(schemas, seed, keys, front);
      assert path[|path| - 2] == front[|front| - 1];
    }
  }

  /** ReachSet holds every reachable key, and is the least closed set around the seed. */
  lemma {:induction false} ReachSetIsLeastClosed(schemas: Dict, seed: set<string>)
    ensures forall k :: k in ReachSet(schemas, seed) <==> Reachable(schemas, seed, k)
    ensures seed <= ReachSet(schemas, seed) && Closed(schemas, ReachSet(schemas, seed))
    ensures forall keys :: seed <= keys && Closed(schemas, keys) ==> ReachSet(schemas, seed) <= keys
  {
    forall k | Reachable(schemas, seed, k) ensures k in ReachSet(schemas, seed) {
      var path :| Chain(schemas, seed, path) && path[|path| - 1] == k;
      if |path| > 1 {
        assert path[|path| - 2] in schemas && path[|path| - 2 + 1] in SchemaKeys(schemas[path[|path| - 2]]);
      }
    }
    forall k | k in seed ensures k in ReachSet(schemas, seed) {
      SeedReachable(schemas, seed, k);
    }
    forall k, n | k in ReachSet(schemas, seed) && k in schemas && n in SchemaKeys(schemas[k])
      ensures n in ReachSet(schemas, seed)
    {
      StepReachable(schemas, seed, k, n);
    }
    forall keys, k | seed <= keys && Closed(schemas, keys) && k in ReachSet(schemas, seed) ensures k in keys {
      var path :| Chain(schemas, seed, path) && path[|path| - 1] == k;
      ChainStaysInClosed(schemas, seed, keys, path);
    }
  }

  /** A Go `map[string]bool` that callers share and grow in place. */
  class KeySet {
    var keys: set<string>

    constructor (keys: set<string>)
      ensures this.keys == keys
    {
      this.keys := keys;
    }
  }

  /** The innermost loop: everything one schema mentions joins the key set. */
  method AddNested(schema: Yaml, schemaKeys: KeySet) returns (added: bool)
    modifies schemaKeys
    ensures schemaKeys.keys == old(schemaKeys.keys) + SchemaKeys(schema)
    ensures added <==> schemaKeys.keys != old(schemaKeys.keys)
  {
    added := false;
    var nestedKeys := CollectComponentKeys(schema, "schemas");
    var pending := nestedKeys;
    while pending != {}
      invariant pending <= nestedKeys
      invariant schemaKeys.keys == old(schemaKeys.keys) + (nestedKeys - pending)
      invariant added <==> schemaKeys.keys != old(schemaKeys.keys)
    {
      var nested :| nested in pending;
      pending := pending - {nested};
      if nested !in schemaKeys.keys {
        schemaKeys.keys := schemaKeys.keys + {nested};
        added := true;
      }
    }
  }

  /**
   One pass ranges over the very map it grows: keys present when the pass starts are all
   produced, in any order; keys inserted during the pass may or may not be.
   */
  method Pass(schemas: Dict, schemaKeys: KeySet, ghost reach: set<string>) returns (added: bool)
    requires schemaKeys.keys <= reach && Closed(schemas, reach)
    modifies schemaKeys
    ensures old(schemaKeys.keys) <= schemaKeys.keys <= reach
    ensures Absorbed(schemas, old(schemaKeys.keys), schemaKeys.keys)
    ensures added <==> schemaKeys.keys != old(schemaKeys.keys)
  {
    added := false;
    var start := schemaKeys.keys;
    var visited := {};
    while true
      invariant start <= schemaKeys.keys <= reach && visited <= schemaKeys.keys
      invariant Absorbed(schemas, visited, schemaKeys.keys)
      invariant added <==> schemaKeys.keys != start
      decreases reach - visited
    {
      if start <= visited {
        if * { break; }
        if schemaKeys.keys == visited { break; }
      }
      var key :| key in schemaKeys.keys && key !in visited;
      if key in schemas {
        var grew := AddNested(schemas[key], schemaKeys);
        added := added || grew;
      }
      visited := visited + {key};
    }
  }

  /** Grows `schemaKeys` in place until a whole pass adds nothing. */
  method ResolveTransitiveSchemas(schemas: Dict, schemaKeys: KeySet)
    modifies schemaKeys
    ensures schemaKeys.keys == ReachSet(schemas, old(schemaKeys.keys))
  {
    ghost var seed, reach := schemaKeys.keys, ReachSet(schemas, schemaKeys.keys);
    ReachSetIsLeastClosed(schemas, seed);
    while true
      invariant seed <= schemaKeys.keys <= reach
      decreases reach - schemaKeys.keys
    {
      var added := Pass(schemas, schemaKeys, reach);
      if !added { break; }
    }
    assert Closed(schemas, schemaKeys.keys);
  }

  lemma {:induction false} ReachSetIsLeast(schemas: Dict, seed: set<string>, keys: set<string>)
    requires seed <= keys && Closed(schemas, keys)
    ensures ReachSet(schemas, seed) <= keys
  {
    ReachSetIsLeastClosed(schemas, seed);
  }

  lemma {:induction false} ReachSetIsClosed(schemas: Dict, seed: set<string>)
    ensures seed <= ReachSet(schemas, seed) && Closed(schemas, ReachSet(schemas, seed))
  {
    ReachSetIsLeastClosed(schemas, seed);
  }

  /** Cutting a schema map down to a closed set of keys leaves that set closed, and conversely. */
  lemma {:induction false} RestrictionKeepsClosed(schemas: Dict, cut: Dict, keys: set<string>, within: set<string>)
    requires forall k :: k in cut <==> k in schemas && k in keys
    requires forall k :: k in cut ==> cut[k] == schemas[k]
    requires within <= keys
    ensures Closed(schemas, within) <==> Closed(cut, within)
  {
  }

  /** Cutting a schema map down to the keys reachable in it changes no reachability. */
  lemma {:induction false} RestrictionKeepsReach(schemas: Dict, seed: set<string>, keys: set<string>, cut: Dict)
    requires keys == ReachSet(schemas, seed)
    requires forall k :: k in cut <==> k in schemas && k in keys
    requires forall k :: k in cut ==> cut[k] == schemas[k]
    ensures ReachSet(cut, seed) == keys
  {
    hide ReachSet, Closed;
    ReachSetIsClosed(schemas, seed);
    RestrictionKeepsClosed(schemas, cut, keys, keys);
    ReachSetIsLeast(cut, seed, keys);
    var cutKeys := ReachSet(cut, seed);
    ReachSetIsClosed(cut, seed);
    RestrictionKeepsClosed(schemas, cut, keys, cutKeys);
    ReachSetIsLeast(schemas, seed, cutKeys);
  }
}
