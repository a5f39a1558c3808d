/** Parsed service documents: what `yaml.Unmarshal` yields into an `interface{}`. */
module DocTree {
  import opened Wrappers

  datatype Yaml =
    | Null
    | Scalar(text: string)            // numbers and booleans
    | Str(s: string)
    | Lst(items: seq<Yaml>)
    | Map(entries: map<string, Yaml>)
    | Mixed(keyed: map<string, Yaml>)  // a mapping with a key that is no string, its keys as texts

  type Dict = map<string, Yaml>

  function GetMap(m: Dict, key: string): Option<Dict> {
    if key in m && m[key].Map? then Some(m[key].entries) else None
  }

  function GetStr(m: Dict, key: string): Option<string> {
    if key in m && m[key].Str? then Some(m[key].s) else None
  }

  /** One step down a document: into a mapping by key or into a list by position. */
  datatype Step = Key(k: string) | Index(i: nat)

  ghost function Descend(y: Yaml, path: seq<Step>): Option<Yaml>
    decreases |path|
  {
    if path == [] then Some(y)
    else match path[0]
      case Key(k) => if y.Map? && k in y.entries then Descend(y.entries[k], path[1..]) else None
      case Index(i) => if y.Lst? && i < |y.items| then Descend(y.items[i], path[1..]) else None
  }
}

/** Reference collection: public/closure/refs.go. */
module ClosureRefs {
  import opened Wrappers
  import opened DocTree
  import opened GoStrings

  /** The string held under "$ref" by this very node, if any. */
  function OwnRef(y: Yaml): set<string> {
    if y.Map? && GetStr(y.entries, "$ref").Some? then {GetStr(y.entries, "$ref").value} else {}
  }

  /** All reference strings held at any depth of a document. */
  ghost function Refs(y: Yaml): set<string> {
    OwnRef(y) +
    match y
    case Lst(items) => set i, r | 0 <= i < |items| && r in Refs(items[i]) :: r
    case Map(m) => set k, r | k in m && r in Refs(m[k]) :: r
    case _ => {}
  }

  /** `ref` sits under a "$ref" key of some mapping inside `y`. */
  ghost predicate Mentions(y: Yaml, ref: string) {
    exists path :: MentionsAt(y, path, ref)
  }

  ghost predicate MentionsAt(y: Yaml, path: seq<Step>, ref: string) {
    var node := Descend(y, path);
    node.Some? && ref in OwnRef(node.value)
  }

  lemma {:induction false} RefsAreMentioned(y: Yaml, ref: string)
    ensures ref in Refs(y) <==> Mentions(y, ref)
  {
    if ref in Refs(y) {
      var path := RefPath(y, ref);
      assert MentionsAt(y, path, ref);
    }
    if Mentions(y, ref) {
      var path :| MentionsAt(y, path, ref);
      MentionedIsRef(y, path, ref);
    }
  }

  lemma {:induction false} RefPath(y: Yaml, ref: string) returns (path: seq<Step>)
    requires ref in Refs(y)
    ensures MentionsAt(y, path, ref)
  {
    if ref in OwnRef(y) {
      path := [];
    } else if y.Lst? {
      var i :| 0 <= i < |y.items| && ref in Refs(y.items[i]);
      var sub := RefPath(y.items[i], ref);
      path := [Index(i)] + sub;
      assert path[1..] == sub;
    } else {
      var k :| k in y.entries && ref in Refs(y.entries[k]);
      var sub := RefPath(y.entries[k], ref);
      path := [Key(k)] + sub;
      assert path[1..] == sub;
    }
  }

  lemma {:induction false} MentionedIsRef(y: Yaml, path: seq<Step>, ref: string)
    requires MentionsAt(y, path, ref)
    ensures ref in Refs(y)
    decreases |path|
  {
    if path != [] {
      match path[0]
      case Key(k) => MentionedIsRef(y.entries[k], path[1..], ref);
      case Index(i) => MentionedIsRef(y.items[i], path[1..], ref);
    }
  }

  /** walkRefs: the callback appends; mapping entries come in any order. */
  method WalkRefs(y: Yaml, refs: seq<string>) returns (out: seq<string>)
    ensures forall r :: r in out <==> r in refs || r in Refs(y)
    decreases y
  {
    out := refs;
    match y {
      case Map(m) =>
        if "$ref" in m && m["$ref"].Str? {
          out := out + [m["$ref"].s];
        }
        var pending := m.Keys;
        while pending != {}
          invariant pending <= m.Keys
          invariant forall r :: r in out <==>
            r in refs || r in OwnRef(y) || exists k :: k in m.Keys - pending && r in Refs(m[k])
        {
          var k :| k in pending;
          out := WalkRefs(m[k], out);
          pending := pending - {k};
        }
      case Lst(items) =>
        for i := 0 to |items|
          invariant forall r :: r in out <==>
            r in refs || exists j :: 0 <= j < i && r in Refs(items[j])
        {
          out := WalkRefs(items[i], out);
        }
      case _ =>
    }
  }

  function ParseComponentRef(ref: string, component: string): Option<string> {
    var prefix := "#/components/" + component + "/";
    if HasPrefix(ref, prefix) then Some(ref[|prefix|..]) else None
  }

  /** The component names referenced from a node. */
  ghost function ComponentKeys(y: Yaml, component: string): set<string> {
    set r | r in Refs(y) && ParseComponentRef(r, component).Some? :: ParseComponentRef(r, component).value
  }

  function ComponentRef(component: string, key: string): string {
    "#/components/" + component + "/" + key
  }

  /** A key is collected exactly when the node mentions its full reference somewhere. */
  lemma {:induction false} ComponentKeysAreMentioned(y: Yaml, component: string, key: string)
    ensures key in ComponentKeys(y, component) <==> Mentions(y, ComponentRef(component, key))
  {
    var prefix := "#/components/" + component + "/";
    assert ComponentRef(component, key) == prefix + key;
    assert ParseComponentRef(prefix + key, component) == Some(key);
    RefsAreMentioned(y, prefix + key);
    if key in ComponentKeys(y, component) {
      var r :| r in Refs(y) && ParseComponentRef(r, component) == Some(key);
      assert r == prefix + r[|prefix|..];
    }
  }

  /** collectSchemaKeys (component "schemas") and collectParameterKeys ("parameters"). */
  method CollectComponentKeys(y: Yaml, component: string) returns (keys: set<string>)
    ensures keys == ComponentKeys(y, component)
  {
    var refs := WalkRefs(y, []);
    keys := {};
    for i := 0 to |refs|
      invariant forall k :: k in keys <==>
        exists j :: 0 <= j < i && ParseComponentRef(refs[j], component) == Some(k)
    {
      var key := ParseComponentRef(refs[i], component);
      if key.Some? {
        keys := keys + {key.value};
      }
    }
    forall k ensures k in keys <==> k in ComponentKeys(y, component) {
      if k in keys {
        var j :| 0 <= j < |refs| && ParseComponentRef(refs[j], component) == Some(k);
        assert refs[j] in Refs(y);
      }
      if k in ComponentKeys(y, component) {
        var r :| r in Refs(y) && ParseComponentRef(r, component) == Some(k);
        assert r in refs;
      }
    }
  }

  // --- operation references -------------------------------------------------

  function UnescapeJsonPointer(s: string): string {
    ReplaceAll(ReplaceAll(s, "~1", "/"), "~0", "~")
  }

  /** The encoding of section 3 of RFC 6901, one character at a time. */
  function EscapeJsonPointer(s: string): string {
    if s == [] then ""
    else (if s[0] == '~' then "~0" else if s[0] == '/' then "~1" else [s[0]]) + EscapeJsonPointer(s[1..])
  }

  datatype OperationRef = OperationRef(path: string, verb: string)

  function ParseOperationRef(ref: string): Option<OperationRef> {
    var rest := TrimPrefix(ref, "#/paths/");
    var cut := LastIndex(rest, '/');
    if rest == "" || cut < 0 then None
    else Some(OperationRef(UnescapeJsonPointer(rest[..cut]), ToLower(rest[cut + 1..])))
  }

  lemma {:induction false} TildeCopied(rest: string)
    ensures ReplaceAll(['~'] + (['0'] + rest), "~1", "/") == "~0" + ReplaceAll(rest, "~1", "/")
  {
    ReplaceCopies('0', rest, "~1", "/");
    var s := ['~'] + (['0'] + rest);
    assert s[1..] == ['0'] + rest && s[1] != "~1"[1];
    assert ReplaceAll(s, "~1", "/") == ['~'] + ReplaceAll(s[1..], "~1", "/");
    assert ['~'] + (['0'] + ReplaceAll(rest, "~1", "/")) == "~0" + ReplaceAll(rest, "~1", "/");
  }

  lemma {:induction false} FirstPassOnEscape(s: string)
    ensures ReplaceAll(EscapeJsonPointer(s), "~1", "/") == EscapeTilde(s)
  {
    if s != [] {
      FirstPassOnEscape(s[1..]);
      var rest := EscapeJsonPointer(s[1..]);
      if s[0] == '~' {
        TildeCopied(rest);
        assert EscapeJsonPointer(s) == ['~'] + (['0'] + rest);
      } else if s[0] == '/' {
        ReplaceHits("~1", rest, "/");
      } else {
        ReplaceCopies(s[0], rest, "~1", "/");
      }
    }
  }

  /** What is left of the encoding after `~1` has been decoded. */
  ghost function EscapeTilde(s: string): string {
    if s == [] then "" else (if s[0] == '~' then "~0" else [s[0]]) + EscapeTilde(s[1..])
  }

  lemma {:induction false} SecondPassOnEscape(s: string)
    ensures ReplaceAll(EscapeTilde(s), "~0", "~") == s
  {
    if s != [] {
      SecondPassOnEscape(s[1..]);
      var rest := EscapeTilde(s[1..]);
      if s[0] == '~' {
        ReplaceHits("~0", rest, "~");
      } else {
        ReplaceCopies(s[0], rest, "~0", "~");
      }
    }
  }

  /** Decoding `~1` before `~0` undoes the encoding of every string. */
  lemma {:induction false} UnescapeUndoesEscape(s: string)
    ensures UnescapeJsonPointer(EscapeJsonPointer(s)) == s
  {
    FirstPassOnEscape(s);
    SecondPassOnEscape(s);
  }

  /** The opposite decoding order is wrong: it turns the encoding of "~1" into "/". */
  lemma {:induction false} OppositeOrderIsWrong()
    ensures EscapeJsonPointer("~1") == "~01"
    ensures ReplaceAll(ReplaceAll("~01", "~0", "~"), "~1", "/") == "/"
    ensures UnescapeJsonPointer("~01") == "~1"
  {
    UnescapeUndoesEscape("~1");
    assert "~01"[2..] == "1" && "1"[1..] == "" && "~1"[2..] == "" && "~1"[1..] == "1";
    assert EscapeJsonPointer("1") == "1";
    assert ReplaceAll("1", "~0", "~") == "1";
    assert ReplaceAll("~01", "~0", "~") == "~1";
  }

  lemma {:induction false} EscapeLength(s: string)
    ensures |EscapeJsonPointer(s)| >= |s|
    ensures |EscapeJsonPointer(s)| == |s| <==> '~' !in s && '/' !in s
    ensures |EscapeJsonPointer(s)| == |s| ==> EscapeJsonPointer(s) == s
  {
    if s != [] {
      EscapeLength(s[1..]);
      assert s == [s[0]] + s[1..];
    }
  }

  /**
   A component reference is never decoded: written as it should be, it is read back exactly when
   its key has no `~` and no `/`.
   */
  lemma {:induction false} ComponentRefReadExactly(component: string, key: string)
    ensures ParseComponentRef(ComponentRef(component, EscapeJsonPointer(key)), component) == Some(key) <==>
        '~' !in key && '/' !in key
  {
    var prefix, e := "#/components/" + component + "/", EscapeJsonPointer(key);
    assert ComponentRef(component, e)[|prefix|..] == e && ComponentRef(component, e)[..|prefix|] == prefix;
    EscapeLength(key);
  }

  /** A well-formed operation reference is read back as its path and lower-case verb. */
  lemma {:induction false} OperationRefRoundTrip(path: string, verb: string)
    requires '/' !in verb
    ensures ParseOperationRef("#/paths/" + EscapeJsonPointer(path) + "/" + verb)
         == Some(OperationRef(path, ToLower(verb)))
  {
    hide TrimPrefix, HasPrefix, EscapeJsonPointer, UnescapeJsonPointer, ToLower;
    var e, prefix := EscapeJsonPointer(path), "#/paths/";
    var rest := e + ['/'] + verb;
    assert prefix + e + "/" + verb == prefix + rest && rest != "";
    TrimsPrefix(prefix, rest);
    UnescapeUndoesEscape(path);
    SplitsAtLastSlash(e, verb);
  }

  lemma {:induction false} SplitsAtLastSlash(encoded: string, verb: string)
    requires '/' !in verb
    ensures var rest := encoded + ['/'] + verb; var cut := LastIndex(rest, '/');
      cut == |encoded| && rest[..cut] == encoded && rest[cut + 1..] == verb
  {
    LastIndexUnique(encoded, '/', verb);
  }
}
