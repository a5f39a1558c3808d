/** The paging reader of pkg/graphql/graphql.go: one Read and the four cursor strategies. */
module GraphQLReader {
  import opened Wrappers
  import opened Decimal

  datatype Json =
    | JNull
    | JBool(b: bool)
    | JNum(n: int)
    | JStr(s: string)
    | JList(items: seq<Json>)
    | JObj(fields: map<string, Json>)

  type Row = map<string, Json>

  datatype Strategy = After | Keyset | Offset | PageInfo

  /** A strategy as the constructor validates it; `formatted` tells whether a cursor template is given. */
  datatype CursorConfig = CursorConfig(strategy: Strategy, jsonPath: string, formatted: bool, terminatePath: string,
          pageSize: int)

  predicate ValidConfig(c: CursorConfig) {
    && (c.strategy == Keyset ==> c.formatted)
    && (c.strategy == PageInfo ==> c.terminatePath != "")
  }

  /** What one request brings: no response at all, a response that cannot be used, or a decoded body. */
  datatype Reply = NoResponse | BadResponse | Body(fields: Row)

  /**
   The parts a reader calls but does not own: the server, the response transform, json path
   selection and the cursor template.
   */
  datatype Env = Env(
    ask: string -> Reply,                               // by the text of the cursor
    transform: Row -> Option<Row>,                      // the response transform, the identity when none is configured
    get: (string, Row) -> Option<Json>,
    render: map<string, Json> -> Option<string>,
    show: Json -> string)                               // `%v` of a cursor that is no string

  datatype Error = EOF | Fault

  datatype State = Snapshot(pageCount: int, cursor: string, rowsReturned: nat)

  datatype ReadResult = ReadResult(rows: seq<Row>, error: Option<Error>)

  /** The next cursor, or why there is none. */
  datatype Next = Continue(cursor: string) | Stop(error: Error)

  // --- the cursor ----------------------------------------------------------------------------------

  function Rendered(env: Env, ctx: map<string, Json>): Next {
    match env.render(ctx) case None => Stop(Fault) case Some(text) => Continue(text)
  }

  function AfterText(env: Env, v: Json): string {
    if v.JStr? then ", after: \"" + v.s + "\"" else ", after: " + env.show(v)
  }

  function AdvanceAfter(env: Env, cfg: CursorConfig, target: Row): Next {
    match env.get(cfg.jsonPath, target)
    case None => Stop(EOF)
    case Some(raw) =>
      if !raw.JList? || |raw.items| != 1 then Stop(EOF)
      else if cfg.formatted then Rendered(env, map["value" := raw.items[0]])
      else Continue(AfterText(env, raw.items[0]))
  }

  lemma {:induction false} OnlyKey<V>(m: map<string, V>)
    requires |m| == 1
    ensures (exists k :: k in m) && forall a, b :: a in m && b in m ==> a == b
  {
    var k :| k in m.Keys;
    assert |m.Keys - {k}| == 0;
    assert m.Keys == {k};
  }

  /** keysetTemplateContext: a scalar, an object's fields, or the first element of a list. */
  function KeysetContext(raw: Json): Option<map<string, Json>> {
    match raw
    case JList(items) => if items == [] then None else KeysetContext(items[0])
    case JObj(fields) =>
      if fields == map[] then None
      else if |fields| == 1 then
        OnlyKey(fields);
        var k :| k in fields;
        Some(fields["value" := fields[k]])
      else Some(fields)
    case _ => Some(map["value" := raw])
  }

  function AdvanceKeyset(env: Env, cfg: CursorConfig, target: Row, rowCount: nat): Next {
    if rowCount == 0 then Stop(EOF)
    else match env.get(cfg.jsonPath, target)
      case None => Stop(EOF)
      case Some(raw) => match KeysetContext(raw) case None => Stop(EOF) case Some(ctx) => Rendered(env, ctx)
  }

  /** `returned` counts every row handed back so far, this page's included. */
  function AdvanceOffset(env: Env, cfg: CursorConfig, returned: nat, rowCount: nat): Next {
    if rowCount == 0 then Stop(EOF)
    else if cfg.pageSize > 0 && rowCount < cfg.pageSize then Stop(EOF)
    else if cfg.formatted then Rendered(env, map["value" := JNum(returned)])
    else Continue(", offset: " + Itoa(returned))
  }

  /** isPageInfoContinue: false and nil stop, and so does an empty list; anything else goes on. */
  predicate IsContinue(v: Json) {
    match v
    case JList(items) => items != [] && IsContinue(items[0])
    case JBool(b) => b
    case JNull => false
    case _ => true
  }

  /** scalarFromJSONPath. */
  function Scalar(v: Json): Option<Json> {
    if v.JList? then (if |v.items| != 1 then None else Some(v.items[0])) else Some(v)
  }

  function AdvancePageInfo(env: Env, cfg: CursorConfig, target: Row): Next {
    match env.get(cfg.terminatePath, target)
    case None => Stop(EOF)
    case Some(flag) =>
      if !IsContinue(flag) then Stop(EOF)
      else match env.get(cfg.jsonPath, target)
        case None => Stop(EOF)
        case Some(raw) => match Scalar(raw)
          case None => Stop(EOF)
          case Some(v) => if cfg.formatted then Rendered(env, map["value" := v]) else Continue(AfterText(env, v))
  }

  function Advance(env: Env, cfg: CursorConfig, target: Row, returned: nat, rowCount: nat): Next {
    match cfg.strategy
    case After => AdvanceAfter(env, cfg, target)
    case Keyset => AdvanceKeyset(env, cfg, target, rowCount)
    case Offset => AdvanceOffset(env, cfg, returned, rowCount)
    case PageInfo => AdvancePageInfo(env, cfg, target)
  }

  // --- when each strategy goes on --------------------------------------------------------------------

  /** The value the first elements of nested lists lead to. */
  function First(raw: Json): Option<Json> {
    if !raw.JList? then Some(raw) else if raw.items == [] then None else First(raw.items[0])
  }

  /**
   A keyset cursor has a context unless it leads to nothing or to an object without fields. A
   scalar is given as "value"; an object's fields keep their names, and a lone field is "value" too.
   */
  lemma {:induction false} KeysetContextExactly(raw: Json)
    ensures KeysetContext(raw) == None <==> First(raw) == None || First(raw) == Some(JObj(map[]))
    ensures KeysetContext(raw).Some? ==>
      var ctx := KeysetContext(raw).value;
      match First(raw).value
      case JObj(fields) =>
        && (forall k :: k in fields && (k != "value" || |fields| == 1) ==> k in ctx && ctx[k] == fields[k])
        && (|fields| == 1 ==> forall k :: k in fields ==> ctx.Keys == {k, "value"} && ctx["value"] == fields[k])
        && (|fields| > 1 ==> ctx == fields)
      case v => ctx == map["value" := v]
  {
    if raw.JList? && raw.items != [] {
      KeysetContextExactly(raw.items[0]);
    } else if raw.JObj? && |raw.fields| == 1 {
      OnlyKey(raw.fields);
    }
  }

  /** The response holds `v` at the path, as a scalar or as the one element of a list. */
  ghost predicate HoldsOne(env: Env, path: string, target: Row, v: Json) {
    env.get(path, target) == Some(JList([v])) || (!v.JList? && env.get(path, target) == Some(v))
  }

  /** The flag at the path is there, and is neither false nor null. */
  ghost predicate HoldsFlag(env: Env, path: string, target: Row) {
    exists raw :: env.get(path, target) == Some(raw) && First(raw).Some? && First(raw).value !in {JBool(false), JNull}
  }

  lemma {:induction false} IsContinueExactly(v: Json)
    ensures IsContinue(v) <==> First(v).Some? && First(v).value !in {JBool(false), JNull}
  {
    if v.JList? && v.items != [] {
      IsContinueExactly(v.items[0]);
    }
  }

  ghost predicate HoldsContext(env: Env, path: string, target: Row, ctx: map<string, Json>) {
    exists raw :: env.get(path, target) == Some(raw) && KeysetContext(raw) == Some(ctx)
  }

  /**
   The page leads on, with these values for the cursor: cursor_after from a list of one element,
   keyset from a page with rows and a cursor that has a context, offset from a page neither empty
   nor short with the rows returned so far, page_info where the flag says so and the cursor is one.
   */
  ghost predicate LeadsTo(env: Env, cfg: CursorConfig, target: Row, returned: nat, rowCount: nat,
          ctx: map<string, Json>) {
    match cfg.strategy
    case After => exists v :: env.get(cfg.jsonPath, target) == Some(JList([v])) && ctx == map["value" := v]
    case Keyset => rowCount > 0 && HoldsContext(env, cfg.jsonPath, target, ctx)
    case Offset => rowCount > 0 && rowCount >= cfg.pageSize && ctx == map["value" := JNum(returned)]
    case PageInfo =>
      HoldsFlag(env, cfg.terminatePath, target) && exists v ::
          HoldsOne(env, cfg.jsonPath, target, v) && ctx == map["value" := v]
  }

  predicate ByTemplate(cfg: CursorConfig) {
    cfg.formatted || cfg.strategy == Keyset
  }

  /** The text written without a template. */
  function PlainText(env: Env, cfg: CursorConfig, v: Json): string {
    if cfg.strategy == Offset && v.JNum? && v.n >= 0 then ", offset: " + Itoa(v.n) else AfterText(env, v)
  }

  /** What stands in a query after the name of an argument. */
  function Argument(text: string, name: string): Option<string> {
    var open := ", " + name + ": ";
    if open <= text then Some(text[|open|..]) else None
  }

  /** The server finds a cursor under `after`, a string in quotes, and an offset under `offset`. */
  lemma {:induction false} PlainTextReads(env: Env, cfg: CursorConfig, v: Json)
    ensures v.JStr? ==> Argument(PlainText(env, cfg, v), "after") == Some("\"" + v.s + "\"")
    ensures !v.JStr? && cfg.strategy != Offset ==> Argument(PlainText(env, cfg, v), "after") == Some(env.show(v))
    ensures v.JNum? && v.n >= 0 && cfg.strategy == Offset ==>
      exists text :: Argument(PlainText(env, cfg, v), "offset") == Some(text) && IsIntText(text) && Atoi(text) == v.n
  {
    hide Itoa, Atoi, IsIntText;
    var after, offset := ", " + "after" + ": ", ", " + "offset" + ": ";
    assert after == ", after: " && offset == ", offset: ";
    if v.JStr? {
      assert after + "\"" == ", after: \"" && AfterText(env, v) == after + ("\"" + v.s + "\"");
    } else if v.JNum? && v.n >= 0 && cfg.strategy == Offset {
      AtoiItoa(v.n);
      assert (offset + Itoa(v.n))[|offset|..] == Itoa(v.n);
    } else {
      assert (after + env.show(v))[|after|..] == env.show(v);
    }
  }

  /** The cursor text for these values: by the template if there is one, and as an argument otherwise. */
  ghost predicate WrittenFor(env: Env, cfg: CursorConfig, ctx: map<string, Json>, text: string) {
    if ByTemplate(cfg) then env.render(ctx) == Some(text)
        else "value" in ctx && text == PlainText(env, cfg, ctx["value"])
  }

  lemma {:induction false} AdvanceLeads(env: Env, cfg: CursorConfig, target: Row, returned: nat, rowCount: nat,
          ctx: map<string, Json>)
    requires LeadsTo(env, cfg, target, returned, rowCount, ctx)
    ensures !ByTemplate(cfg) ==> "value" in ctx
    ensures Advance(env, cfg, target, returned, rowCount) ==
      if ByTemplate(cfg) then Rendered(env, ctx) else Continue(PlainText(env, cfg, ctx["value"]))
  {
    hide Itoa, KeysetContext, AfterText, IsContinue, First;
    if env.get(cfg.terminatePath, target).Some? {
      IsContinueExactly(env.get(cfg.terminatePath, target).value);
    }
  }

  lemma {:induction false} AdvanceStops(env: Env, cfg: CursorConfig, target: Row, returned: nat, rowCount: nat)
      returns (ctx: map<string, Json>)
    ensures Advance(env, cfg, target, returned, rowCount) != Stop(EOF) ==>
        LeadsTo(env, cfg, target, returned, rowCount, ctx)
  {
    hide Itoa, KeysetContext, AfterText, IsContinue, First;
    ctx := map[];
    if Advance(env, cfg, target, returned, rowCount) != Stop(EOF) {
      match cfg.strategy
      case After =>
        var items := env.get(cfg.jsonPath, target).value.items;
        assert items == [items[0]];
        ctx := map["value" := items[0]];
      case Keyset =>
        ctx := KeysetContext(env.get(cfg.jsonPath, target).value).value;
      case Offset =>
        ctx := map["value" := JNum(returned)];
      case PageInfo =>
        IsContinueExactly(env.get(cfg.terminatePath, target).value);
        var raw := env.get(cfg.jsonPath, target).value;
        var v := Scalar(raw).value;
        assert raw.JList? ==> raw == JList([v]);
        assert HoldsOne(env, cfg.jsonPath, target, v);
        ctx := map["value" := v];
    }
  }

  /**
   The reader goes on exactly with the text written for the values the page leads to, faults
   exactly when the template fails on those values, and stops exactly when the page leads to none.
   */
  lemma {:induction false} AdvanceExactly(env: Env, cfg: CursorConfig, target: Row, returned: nat, rowCount: nat)
    ensures var next := Advance(env, cfg, target, returned, rowCount);
      && (forall text :: next == Continue(text) <==>
            exists ctx :: LeadsTo(env, cfg, target, returned, rowCount, ctx) && WrittenFor(env, cfg, ctx, text))
      && (next == Stop(Fault) <==>
            ByTemplate(cfg) && exists ctx ::
                LeadsTo(env, cfg, target, returned, rowCount, ctx) && env.render(ctx) == None)
      && (next == Stop(EOF) <==> forall ctx :: !LeadsTo(env, cfg, target, returned, rowCount, ctx))
  {
    hide Advance, LeadsTo, PlainText;
    var ctx := AdvanceStops(env, cfg, target, returned, rowCount);
    forall c | LeadsTo(env, cfg, target, returned, rowCount, c)
      ensures !ByTemplate(cfg) ==> "value" in c
      ensures Advance(env, cfg, target, returned, rowCount) ==
        if ByTemplate(cfg) then Rendered(env, c) else Continue(PlainText(env, cfg, c["value"])) {
      AdvanceLeads(env, cfg, target, returned, rowCount, c);
    }
  }

  // --- one read --------------------------------------------------------------------------------------

  /** extractGraphQLErrors: a non-empty top-level list of errors is a hard failure. */
  predicate HasErrors(target: Row) {
    "errors" in target && target["errors"].JList? && target["errors"].items != []
  }

  /** The rows at the response path: a list, all of whose items are objects. */
  function RowsOf(v: Json): Option<seq<Row>> {
    if !v.JList? then None else ItemRows(v.items)
  }

  function ItemRows(items: seq<Json>): Option<seq<Row>> {
    if items == [] then Some([])
    else if !items[0].JObj? then None
    else match ItemRows(items[1..]) case None => None case Some(rest) => Some([items[0].fields] + rest)
  }

  lemma {:induction false} AllObjects(items: seq<Json>)
    ensures ItemRows(items).Some? <==> forall i :: 0 <= i < |items| ==> items[i].JObj?
    ensures ItemRows(items).Some? ==> |ItemRows(items).value| == |items| && forall i :: 0 <= i < |items| ==>
        ItemRows(items).value[i] == items[i].fields
  {
    if items != [] {
      AllObjects(items[1..]);
      assert items == [items[0]] + items[1..];
    }
  }

  datatype Config = Config(cursor: CursorConfig, pageLimit: int, responsePath: string)

  predicate LimitReached(c: Config, st: State) {
    c.pageLimit > 0 && st.pageCount >= c.pageLimit
  }

  function Step(env: Env, c: Config, st: State): (State, ReadResult) {
    if LimitReached(c, st) then (st, ReadResult([], Some(EOF)))
    else match env.ask(st.cursor)
      case NoResponse => (st, ReadResult([], Some(Fault)))
      case BadResponse => (st.(pageCount := st.pageCount + 1), ReadResult([], Some(Fault)))
      case Body(_) => Received(env, c, st.(pageCount := st.pageCount + 1), Target(env, st.cursor))
  }

  /** What the reader goes on with when it asks with a cursor text: the body, if it reports no errors, transformed. */
  function Target(env: Env, text: string): Option<Row> {
    if env.ask(text).Body? && !HasErrors(env.ask(text).fields) then env.transform(env.ask(text).fields) else None
  }

  function Received(env: Env, c: Config, st: State, body: Option<Row>): (State, ReadResult) {
    if body.None? then (st, ReadResult([], Some(Fault)))
    else
      var target := body.value;
      match env.get(c.responsePath, target)
      case None => (st, ReadResult([], Some(Fault)))
      case Some(v) => match RowsOf(v)
        case None => (st, ReadResult([], Some(Fault)))
        case Some(rows) =>
          var returned := st.rowsReturned + |rows|;
          if target == map[] then (st.(rowsReturned := returned), ReadResult(rows, Some(EOF)))
          else match Advance(env, c.cursor, target, returned, |rows|)
            case Continue(text) => (st.(rowsReturned := returned, cursor := text), ReadResult(rows, None))
            case Stop(e) => (st.(rowsReturned := returned), ReadResult(rows, Some(e)))
  }

  ghost predicate ReportsErrors(fields: Row) {
    exists e, more :: "errors" in fields && fields["errors"] == JList([e] + more)
  }

  function AsItems(rows: seq<Row>): seq<Json> {
    seq(|rows|, i requires 0 <= i < |rows| => JObj(rows[i]))
  }

  /**
   The response is a body that reports no errors, and is transformed into `target`, with `rows` at
   the response path.
   */
  ghost predicate Answered(env: Env, c: Config, text: string, target: Row, rows: seq<Row>) {
    && env.ask(text).Body? && !ReportsErrors(env.ask(text).fields)
    && env.transform(env.ask(text).fields) == Some(target)
    && env.get(c.responsePath, target) == Some(JList(AsItems(rows)))
  }

  lemma {:induction false} HasErrorsExactly(fields: Row)
    ensures HasErrors(fields) <==> ReportsErrors(fields)
  {
    if HasErrors(fields) {
      var items := fields["errors"].items;
      assert items == [items[0]] + items[1..];
    }
  }

  lemma {:induction false} RowsOfExactly(v: Json, rows: seq<Row>)
    ensures RowsOf(v) == Some(rows) <==> v == JList(AsItems(rows))
  {
    if v.JList? {
      AllObjects(v.items);
      if RowsOf(v) == Some(rows) {
        assert v.items == AsItems(rows);
      }
      if v.items == AsItems(rows) {
        assert RowsOf(v).value == rows;
      }
    }
  }

  ghost predicate Yields(env: Env, c: Config, text: string, target: Row, rows: seq<Row>) {
    && Target(env, text) == Some(target)
    && env.get(c.responsePath, target).Some? && RowsOf(env.get(c.responsePath, target).value) == Some(rows)
  }

  lemma {:induction false} AnsweredExactly(env: Env, c: Config, text: string, target: Row, rows: seq<Row>)
    ensures Answered(env, c, text, target, rows) <==> Yields(env, c, text, target, rows)
  {
    hide HasErrors, ReportsErrors, RowsOf, AsItems;
    if env.ask(text).Body? {
      HasErrorsExactly(env.ask(text).fields);
    }
    if env.get(c.responsePath, target).Some? {
      RowsOfExactly(env.get(c.responsePath, target).value, rows);
    }
  }

  /** The reader moves on, or stops where it is, as the strategy says of the page. */
  ghost predicate MovesOn(env: Env, c: Config, st: State, target: Row, next: State, r: ReadResult) {
    match Advance(env, c.cursor, target, next.rowsReturned, |r.rows|)
    case Continue(text) => r.error == None && next.cursor == text
    case Stop(e) => r.error == Some(e) && next.cursor == st.cursor
  }

  /**
   One read, whatever comes back: beyond the limit nothing is asked; rows that are answered are handed back and
   counted, and the reader moves on unless the body is empty; anything else is a fault without rows.
   */
  lemma {:induction false} ReadExactly(env: Env, c: Config, st: State)
    ensures var (next, r) := Step(env, c, st);
      if c.pageLimit > 0 && st.pageCount >= c.pageLimit then next == st && r == ReadResult([], Some(EOF))
      else
        && next.pageCount == st.pageCount + (if env.ask(st.cursor).NoResponse? then 0 else 1)
        && (forall target, rows :: Answered(env, c, st.cursor, target, rows) ==>
              && r.rows == rows && next.rowsReturned == st.rowsReturned + |rows|
              && (target == map[] ==> r.error == Some(EOF) && next.cursor == st.cursor)
              && (target != map[] ==> MovesOn(env, c, st, target, next, r)))
        && ((forall target, rows :: !Answered(env, c, st.cursor, target, rows)) ==>
              r == ReadResult([], Some(Fault)) && next.cursor == st.cursor && next.rowsReturned == st.rowsReturned)
  {
    hide Answered, Target, RowsOf, Advance;
    TargetNeedsBody(env, st.cursor);
    var t := Target(env, st.cursor);
    if t.Some? && env.get(c.responsePath, t.value).Some? && RowsOf(env.get(c.responsePath, t.value).value).Some? {
      assert Yields(env, c, st.cursor, t.value, RowsOf(env.get(c.responsePath, t.value).value).value);
    }
    forall target, rows
      ensures Answered(env, c, st.cursor, target, rows) <==> Yields(env, c, st.cursor, target, rows) {
      AnsweredExactly(env, c, st.cursor, target, rows);
    }
  }

  lemma {:induction false} TargetNeedsBody(env: Env, text: string)
    ensures Target(env, text).Some? ==> env.ask(text).Body?
  {
  }

  class Reader {
    const env: Env
    const config: Config
    var pageCount: int
    var cursor: string
    var rowsReturned: nat

    constructor (env: Env, config: Config, initialCursor: string)
      requires ValidConfig(config.cursor)
      ensures this.env == env && this.config == config && Now() == Snapshot(1, initialCursor, 0)
    {
      this.env, this.config := env, config;
      pageCount, cursor, rowsReturned := 1, initialCursor, 0;
    }

    ghost function Now(): State
      reads this
    {
      Snapshot(pageCount, cursor, rowsReturned)
    }

    /** advanceCursor and its four helpers: sets the cursor for the next page or says why there is none. */
    method AdvanceCursor(target: Row, rowCount: nat) returns (stop: Option<Error>)
      modifies this`cursor
      ensures match Advance(env, config.cursor, target, rowsReturned, rowCount)
        case Continue(text) => cursor == text && stop == None
        case Stop(e) => cursor == old(cursor) && stop == Some(e)
    {
      var next := Advance(env, config.cursor, target, rowsReturned, rowCount);
      match next {
        case Continue(text) =>
          cursor := text;
          stop := None;
        case Stop(e) =>
          stop := Some(e);
      }
    }

    method CollectRows(processed: Json) returns (rows: Option<seq<Row>>)
      ensures rows == RowsOf(processed)
    {
      if !processed.JList? { return None; }
      var items := processed.items;
      AllObjects(items);
      var collected: seq<Row> := [];
      for i := 0 to |items|
        invariant |collected| == i && forall j :: 0 <= j < i ==> items[j].JObj? && collected[j] == items[j].fields
      {
        if !items[i].JObj? { return None; }
        collected := collected + [items[i].fields];
      }
      assert collected == ItemRows(items).value;
      return Some(collected);
    }

    method Read() returns (r: ReadResult)
      modifies this
      ensures (Now(), r) == Step(env, config, old(Now()))
    {
      if config.pageLimit > 0 && pageCount >= config.pageLimit {
        return ReadResult([], Some(EOF));
      }
      var reply := env.ask(cursor);
      if reply.NoResponse? {
        return ReadResult([], Some(Fault));
      }
      pageCount := pageCount + 1;
      if reply.BadResponse? || HasErrors(reply.fields) {
        return ReadResult([], Some(Fault));
      }
      var transformed := env.transform(reply.fields);
      if transformed.None? {
        return ReadResult([], Some(Fault));
      }
      var target := transformed.value;
      var processed := env.get(config.responsePath, target);
      if processed.None? {
        return ReadResult([], Some(Fault));
      }
      var rows := CollectRows(processed.value);
      if rows.None? {
        return ReadResult([], Some(Fault));
      }
      rowsReturned := rowsReturned + |rows.value|;
      var returnErr := if |target| == 0 then Some(EOF) else None;
      if returnErr.None? {
        returnErr := AdvanceCursor(target, |rows.value|);
      }
      return ReadResult(rows.value, returnErr);
    }
  }

  // --- whole runs --------------------------------------------------------------------------------------

  /** The state after `n` reads, whatever they returned. */
  function AfterReads(env: Env, c: Config, st: State, n: nat): State {
    if n == 0 then st else Step(env, c, AfterReads(env, c, st, n - 1)).0
  }

  /** All the rows that `n` reads hand back, those that come with an error included. */
  function Handed(env: Env, c: Config, st: State, n: nat): seq<Row> {
    if n == 0 then [] else Handed(env, c, st, n - 1) + Step(env, c, AfterReads(env, c, st, n - 1)).1.rows
  }

  /** How many of `n` reads brought a response. */
  function Responses(env: Env, c: Config, st: State, n: nat): nat {
    if n == 0 then 0
    else
      var before := AfterReads(env, c, st, n - 1);
      Responses(env, c, st, n - 1) + if LimitReached(c, before) || env.ask(before.cursor).NoResponse? then 0 else 1
  }

  const START: int := 1

  /** In every run the count kept by the reader is the number of rows it handed back. */
  lemma {:induction false} CountsRows(env: Env, c: Config, st: State, n: nat)
    ensures AfterReads(env, c, st, n).rowsReturned == st.rowsReturned + |Handed(env, c, st, n)|
  {
    hide Advance, Target, RowsOf;
    if n > 0 {
      CountsRows(env, c, st, n - 1);
    }
  }

  lemma {:induction false} CountsPages(env: Env, c: Config, st: State, n: nat)
    ensures AfterReads(env, c, st, n).pageCount == st.pageCount + Responses(env, c, st, n)
  {
    if n > 0 {
      CountsPages(env, c, st, n - 1);
    }
  }

  /**
   A page limit L > 0 lets at most L - 1 responses through, however often Read is called, and if
   all requests are answered no fewer.
   */
  lemma {:induction false} LimitBoundsResponses(env: Env, c: Config, initialCursor: string, n: nat)
    requires c.pageLimit > 0
    ensures var got := Responses(env, c, Snapshot(START, initialCursor, 0), n);
      && got <= c.pageLimit - 1
      && ((forall text :: !env.ask(text).NoResponse?) ==> got == if n < c.pageLimit then n else c.pageLimit - 1)
  {
    var st := Snapshot(START, initialCursor, 0);
    if n > 0 {
      LimitBoundsResponses(env, c, initialCursor, n - 1);
      CountsPages(env, c, st, n - 1);
    }
  }
}
